/** The participant list: row selection for bulk deletion and the Excel
    export's guest filter and rows. The file writing itself is not
    modelled. */
module ParticipantList {
  import opened Js
  import opened Guests
  import Report

  // ----- selection -----

  /** `xs.filter(x => x !== id)`. */
  function RemoveId(xs: seq<string>, id: string): (r: seq<string>)
    ensures id !in r
    ensures forall x :: x != id ==> (x in r <==> x in xs)
    ensures |r| <= |xs|
  {
    if xs == [] then []
    else if xs[0] == id then RemoveId(xs[1..], id)
    else [xs[0]] + RemoveId(xs[1..], id)
  }

  /** The selection after a click on row `id`: removed if it was selected,
      appended otherwise. */
  function Toggle(selected: seq<string>, id: string): (r: seq<string>)
    ensures id in r <==> id !in selected
    ensures forall x :: x != id ==> (x in r <==> x in selected)
  {
    if id in selected then RemoveId(selected, id) else selected + [id]
  }

  predicate NoDuplicates(xs: seq<string>) {
    forall i, j :: 0 <= i < j < |xs| ==> xs[i] != xs[j]
  }

  /** Removing an id that is absent changes nothing. */
  lemma {:induction false} RemoveAbsent(xs: seq<string>, id: string)
    requires id !in xs
    ensures RemoveId(xs, id) == xs
  {
    if xs != [] {
      RemoveAbsent(xs[1..], id);
    }
  }

  /** Removing an id takes away all its copies and nothing else. */
  lemma {:induction false} RemoveIdMultiset(xs: seq<string>, id: string)
    ensures multiset(RemoveId(xs, id)) == multiset(xs)[id := 0]
  {
    if xs != [] {
      RemoveIdMultiset(xs[1..], id);
      assert xs == [xs[0]] + xs[1..];
    }
  }

  /** A selection without duplicates keeps none after a toggle. */
  lemma {:induction false} ToggleNoDuplicates(selected: seq<string>, id: string)
    requires NoDuplicates(selected)
    ensures NoDuplicates(Toggle(selected, id))
  {
    if id in selected {
      RemoveIdMultiset(selected, id);
      RemoveIdSubsequence(selected, id);
    }
  }

  /** Removing keeps a duplicate-free list duplicate-free. */
  lemma {:induction false} RemoveIdSubsequence(xs: seq<string>, id: string)
    requires NoDuplicates(xs)
    ensures NoDuplicates(RemoveId(xs, id))
  {
    if xs != [] {
      RemoveIdSubsequence(xs[1..], id);
      if xs[0] != id {
        assert xs[0] !in xs[1..];
        assert xs[0] !in RemoveId(xs[1..], id);
      }
    }
  }

  /** Clicking the same row twice restores which rows are selected; an
      unselected row's two clicks restore the list exactly, and in a list
      without duplicates the same ids come back, the clicked one last. */
  lemma {:induction false} ToggleTwice(selected: seq<string>, id: string)
    ensures forall x :: x in Toggle(Toggle(selected, id), id) <==> x in selected
    ensures id !in selected ==> Toggle(Toggle(selected, id), id) == selected
    ensures NoDuplicates(selected) ==> multiset(Toggle(Toggle(selected, id), id)) == multiset(selected)
  {
    if id !in selected {
      assert id in selected + [id];
      RemoveIdMultiset(selected + [id], id);
      RemoveAbsent(selected, id);
      RemoveAppend(selected, [id], id);
      assert RemoveId([id], id) == [];
      assert selected + [] == selected;
    } else {
      var once := RemoveId(selected, id);
      assert id !in once;
      RemoveIdMultiset(selected, id);
      if NoDuplicates(selected) {
        var k :| 0 <= k < |selected| && selected[k] == id;
        CountOnce(selected, k);
      }
    }
  }

  /** In a list without duplicates an element occurs once. */
  lemma {:induction false} CountOnce(xs: seq<string>, k: nat)
    requires NoDuplicates(xs) && k < |xs|
    ensures multiset(xs)[xs[k]] == 1
  {
    if k == 0 {
      assert xs == [xs[0]] + xs[1..];
      assert xs[0] !in xs[1..];
    } else {
      CountOnce(xs[1..], k - 1);
      assert xs == [xs[0]] + xs[1..];
      assert xs[1..][k - 1] == xs[k];
    }
  }

  /** Removing from a concatenation removes from both parts. */
  lemma {:induction false} RemoveAppend(a: seq<string>, b: seq<string>, id: string)
    ensures RemoveId(a + b, id) == RemoveId(a, id) + RemoveId(b, id)
  {
    if a == [] {
      assert a + b == b;
    } else {
      assert (a + b)[1..] == a[1..] + b;
      RemoveAppend(a[1..], b, id);
    }
  }

  /** Two clicks on a selected row that is not last move it to the end. */
  lemma ToggleTwiceMovesToEnd(a: string, b: string)
    requires a != b
    ensures Toggle(Toggle([a, b], a), a) == [b, a]
  {
    assert a in [a, b];
    assert RemoveId([a, b], a) == [b];
    assert a !in [b];
  }

  /** `handleBulkDelete`: the confirmation opens only for a non-empty
      selection. */
  function BulkDeleteConfirm(selected: seq<string>, confirmOpen: bool): (shown: bool)
    ensures selected == [] ==> shown == confirmOpen
    ensures selected != [] ==> shown
  {
    if selected == [] then confirmOpen else true
  }

  // ----- export -----

  const AllGuestsChoice := "ALL GUESTS"

  /** The guests of exactly one type, in list order. */
  function OfType(gs: seq<Guest>, guestType: string): (r: seq<Guest>)
    ensures |r| <= |gs|
    ensures forall g :: g in r <==> g in gs && g.guestType == guestType
  {
    if gs == [] then []
    else if gs[0].guestType == guestType then [gs[0]] + OfType(gs[1..], guestType)
    else OfType(gs[1..], guestType)
  }

  /** The export's filter: every guest for `ALL GUESTS`, else those of the
      chosen type. */
  function ExportFilter(all: seq<Guest>, choice: string): (r: seq<Guest>)
    ensures choice == AllGuestsChoice ==> r == all
    ensures choice != AllGuestsChoice ==> forall g :: g in r <==> g in all && g.guestType == choice
  {
    if choice == AllGuestsChoice then all else OfType(all, choice)
  }

  /** Filtering keeps relative order: a list filtered in two parts is the
      two filtered parts. */
  lemma {:induction false} OfTypeAppend(a: seq<Guest>, b: seq<Guest>, guestType: string)
    ensures OfType(a + b, guestType) == OfType(a, guestType) + OfType(b, guestType)
  {
    if a == [] {
      assert a + b == b;
    } else {
      assert (a + b)[1..] == a[1..] + b;
      OfTypeAppend(a[1..], b, guestType);
    }
  }

  /** A type's export has as many rows as the report counts for that type. */
  lemma {:induction false} ExportMatchesReport(all: seq<Guest>, guestType: string)
    ensures |OfType(all, guestType)| == Report.CountType(all, guestType)
  {
    if all != [] {
      ExportMatchesReport(all[1..], guestType);
    }
  }

  /** One row of the sheet. */
  datatype ExportRow = ExportRow(
    firstName: string,
    lastName: string,
    email: string,
    qrId: string,
    plusOneCount: nat,
    guestType: string,
    willAttend: string,
    isCheckedIn: string,
    checkInTime: string)

  /** `t('yes')` or `t('no')`. */
  function YesNo(b: bool, t: string -> string): string {
    if b then t("yes") else t("no")
  }

  /** The sheet rows for the chosen guests; `localTime` stands for
      `toLocaleString`. */
  function ExportRows(all: seq<Guest>, choice: string, t: string -> string, localTime: CheckInTime -> string)
    : (rows: seq<ExportRow>)
    ensures |rows| == |ExportFilter(all, choice)|
    ensures forall i :: 0 <= i < |rows| ==>
      var g := ExportFilter(all, choice)[i];
      rows[i].firstName == g.firstName && rows[i].lastName == g.lastName && rows[i].email == g.email &&
      rows[i].qrId == g.qrId && rows[i].guestType == g.guestType &&
      rows[i].plusOneCount == PlusOneCount(g) &&
      (g.guests.None? ==> rows[i].plusOneCount == 0) &&
      rows[i].willAttend == YesNo(g.willAttend, t) && rows[i].isCheckedIn == YesNo(g.isCheckedIn, t) &&
      rows[i].checkInTime == (if g.checkInTime.Some? then localTime(g.checkInTime.value) else t("none"))
  {
    var kept := ExportFilter(all, choice);
    seq(|kept|, i requires 0 <= i < |kept| =>
      var g := kept[i];
      ExportRow(g.firstName, g.lastName, g.email, g.qrId, PlusOneCount(g), g.guestType,
                YesNo(g.willAttend, t), YesNo(g.isCheckedIn, t),
                if g.checkInTime.Some? then localTime(g.checkInTime.value) else t("none")))
  }
}
