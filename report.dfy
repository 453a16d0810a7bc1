/** The participants report: attendance, check-in, response and guest-type
    counts, and check-ins per hour of the day. The charts, the PDF export and
    the percentage labels are not modelled; a check-in's hour is an input. */
module Report {
  import opened Js
  import opened Guests

  /** `guests.filter(p).length`. */
  function CountWhere(gs: seq<Guest>, p: Guest -> bool): (n: nat)
    ensures n <= |gs|
  {
    if gs == [] then 0 else (if p(gs[0]) then 1 else 0) + CountWhere(gs[1..], p)
  }

  /** A filter and its negation split the list between them. */
  lemma {:induction false} CountComplement(gs: seq<Guest>, p: Guest -> bool, q: Guest -> bool)
    requires forall g :: q(g) == !p(g)
    ensures CountWhere(gs, p) + CountWhere(gs, q) == |gs|
  {
    if gs != [] {
      CountComplement(gs[1..], p, q);
    }
  }

  predicate WillAttend(g: Guest) { g.willAttend }
  predicate CheckedIn(g: Guest) { g.isCheckedIn }
  predicate NotCheckedIn(g: Guest) { !g.isCheckedIn }
  predicate Responded(g: Guest) { g.responded }

  /** Guests whose type is exactly `guestType`. */
  function CountType(gs: seq<Guest>, guestType: string): nat {
    CountWhere(gs, (g: Guest) => g.guestType == guestType)
  }

  /** Guests of none of the four known types. */
  function CountOtherTypes(gs: seq<Guest>): nat {
    CountWhere(gs, (g: Guest) => g.guestType != EMPLOYEE && g.guestType != REGULAR && g.guestType != VIP && g.guestType != PLUSONE)
  }

  /** The four type counts and the guests of any other type add up to the
      whole list, so the four counts never exceed it. */
  lemma {:induction false} TypeCountsPartition(gs: seq<Guest>)
    ensures CountType(gs, EMPLOYEE) + CountType(gs, REGULAR) + CountType(gs, VIP) + CountType(gs, PLUSONE) +
            CountOtherTypes(gs) == |gs|
  {
    if gs != [] {
      TypeCountsPartition(gs[1..]);
    }
  }

  datatype TypeCounts = TypeCounts(employee: nat, regular: nat, vip: nat, plusOne: nat)

  datatype Stats = Stats(
    willAttendCount: nat,
    checkedInCount: nat,
    notCheckedInCount: nat,
    respondedCount: nat,
    guestTypeCounts: TypeCounts)

  /** The statistics of a guest list. */
  function Statistics(gs: seq<Guest>): (s: Stats)
    ensures s.checkedInCount + s.notCheckedInCount == |gs|
    ensures s.willAttendCount <= |gs| && s.respondedCount <= |gs|
    ensures s.guestTypeCounts.employee + s.guestTypeCounts.regular + s.guestTypeCounts.vip +
            s.guestTypeCounts.plusOne <= |gs|
  {
    CountComplement(gs, CheckedIn, NotCheckedIn);
    TypeCountsPartition(gs);
    Stats(
      CountWhere(gs, WillAttend),
      CountWhere(gs, CheckedIn),
      CountWhere(gs, NotCheckedIn),
      CountWhere(gs, Responded),
      TypeCounts(CountType(gs, EMPLOYEE), CountType(gs, REGULAR), CountType(gs, VIP), CountType(gs, PLUSONE)))
  }

  /** The doughnut's two parts: responded and not responded, both
      non-negative and adding up to the list. */
  function ResponseParts(gs: seq<Guest>): (parts: (nat, nat))
    ensures parts.0 + parts.1 == |gs|
    ensures parts.0 == Statistics(gs).respondedCount
  {
    var responded := Statistics(gs).respondedCount;
    (responded, |gs| - responded)
  }

  // ----- check-ins per hour -----

  /** The guest counts in hour `h`'s bucket. */
  predicate InHour(g: Guest, h: int) {
    g.isCheckedIn && g.checkInTime.Some? && g.checkInTime.value.hour == h
  }

  /** The guest counts in some bucket. */
  predicate Bucketed(g: Guest) {
    g.isCheckedIn && g.checkInTime.Some?
  }

  /** Guests of `gs` in hour `h`'s bucket, counted from the end so that a
      loop over the list extends it one guest at a time. */
  function HourCount(gs: seq<Guest>, h: int): nat {
    if gs == [] then 0
    else HourCount(gs[..|gs| - 1], h) + (if InHour(gs[|gs| - 1], h) then 1 else 0)
  }

  /** Guests of `gs` that land in some bucket. */
  function BucketedCount(gs: seq<Guest>): nat {
    if gs == [] then 0
    else BucketedCount(gs[..|gs| - 1]) + (if Bucketed(gs[|gs| - 1]) then 1 else 0)
  }

  /** Total of the buckets `0 .. n-1`. */
  function SumBuckets(gs: seq<Guest>, n: nat): nat {
    if n == 0 then 0 else SumBuckets(gs, n - 1) + HourCount(gs, n - 1)
  }

  /** One guest's share of the first `n` buckets: 1 when its hour is below
      `n`, else 0. */
  lemma {:induction false} SumBucketsStep(gs: seq<Guest>, n: nat)
    requires gs != []
    ensures var g := gs[|gs| - 1];
      SumBuckets(gs, n) == SumBuckets(gs[..|gs| - 1], n) +
        (if Bucketed(g) && g.checkInTime.value.hour < n then 1 else 0)
  {
    if n > 0 {
      SumBucketsStep(gs, n - 1);
    }
  }

  /** No guests, empty buckets. */
  lemma {:induction false} SumBucketsEmpty(n: nat)
    ensures SumBuckets([], n) == 0
  {
    if n > 0 {
      SumBucketsEmpty(n - 1);
    }
  }

  /** The 24 buckets together hold every bucketed guest exactly once. */
  lemma {:induction false} BucketsTotal(gs: seq<Guest>)
    ensures SumBuckets(gs, 24) == BucketedCount(gs)
  {
    if gs == [] {
      SumBucketsEmpty(24);
    } else {
      var g := gs[|gs| - 1];
      SumBucketsStep(gs, 24);
      BucketsTotal(gs[..|gs| - 1]);
      assert Bucketed(g) ==> g.checkInTime.value.hour < 24;
    }
  }

  /** The hourly line chart's data: `Array(24).fill(0)`, then one increment
      per checked-in guest with a check-in time, at that time's hour. */
  method HourlyData(guests: seq<Guest>) returns (hourly: array<nat>)
    ensures fresh(hourly) && hourly.Length == 24
    ensures forall h :: 0 <= h < 24 ==> hourly[h] == HourCount(guests, h)
  {
    hourly := new nat[24](_ => 0);
    var i := 0;
    while i < |guests|
      invariant 0 <= i <= |guests|
      invariant forall h :: 0 <= h < 24 ==> hourly[h] == HourCount(guests[..i], h)
    {
      var g := guests[i];
      assert guests[..i + 1][..i] == guests[..i];
      if g.isCheckedIn && g.checkInTime.Some? {
        var hour := g.checkInTime.value.hour;
        hourly[hour] := hourly[hour] + 1;
      }
      i := i + 1;
    }
    assert guests[..|guests|] == guests;
  }

  /** The report's statistics, recomputed by its effect. */
  class ReportView {
    var stats: Option<Stats>

    constructor (initial: Option<Stats>)
      ensures stats == initial
    {
      stats := initial;
    }

    /** The effect: statistics are recomputed only while the report is open
        over a non-empty list. */
    method Recompute(isOpen: bool, guests: seq<Guest>)
      modifies this
      ensures isOpen && guests != [] ==> stats == Some(Statistics(guests))
      ensures !(isOpen && guests != []) ==> stats == old(stats)
    {
      if isOpen && |guests| > 0 {
        stats := Some(Statistics(guests));
      }
    }
  }
}
