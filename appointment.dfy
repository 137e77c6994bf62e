/** One booked stay and its date footprint. Dates are day ordinals (see
    Calendar.ToOrdinal), so `arrival + timedelta(days=i)` is `arrival + i`. */
module Reservation {
  import opened Calendar

  /** The five fields of the source's appointment, with the arrival date's
      text kept verbatim (it is displayed as typed) and the day ordinal it
      parses to. */
  datatype Appointment = Appointment(
    ownerName: string,
    contactNumber: string,
    guests: int,
    duration: int,
    targetDate: string,
    arrival: int)

  /** The appointment's text parses to a date whose ordinal is `arrival`, and
      its counts are positive, as the booking checks ensure. */
  ghost predicate WellFormed(a: Appointment) {
    a.guests > 0 && a.duration > 0 &&
    ParseDate(a.targetDate).Some? && a.arrival == ToOrdinal(ParseDate(a.targetDate).value)
  }

  /** `[arrival + i for i in range(duration)]`: one entry per day of the
      stay (none when `range` gets a non-positive count), starting at the
      arrival day and going up by exactly one day from entry to entry. */
  function StayRun(arrival: int, duration: int): (r: seq<int>)
    ensures |r| == if duration > 0 then duration else 0
    ensures duration > 0 ==> r[0] == arrival
    ensures forall i :: 0 <= i < |r| ==> r[i] == arrival + i
  {
    seq(if duration > 0 then duration else 0, i => arrival + i)
  }

  /** A day is in the run exactly when it lies in the half-open interval
      [arrival, arrival + duration). */
  lemma StayRunMembership(arrival: int, duration: int, x: int)
    ensures x in StayRun(arrival, duration) <==> arrival <= x < arrival + duration
  {
    if arrival <= x < arrival + duration {
      assert StayRun(arrival, duration)[x - arrival] == x;
    }
  }

  /** The departure date, arrival plus `duration` days: the day after the
      last stay day, and never itself a stay day. */
  function DepartureDate(a: Appointment): (r: int)
    ensures r !in StayRun(a.arrival, a.duration)
    ensures a.duration > 0 ==> r == StayRun(a.arrival, a.duration)[a.duration - 1] + 1
  {
    StayRunMembership(a.arrival, a.duration, a.arrival + a.duration);
    a.arrival + a.duration
  }

  /** The days the stay occupies: `duration` of them, exactly the days from
      the arrival day up to, and not including, the departure day. */
  function StayDates(a: Appointment): (r: seq<int>)
    ensures |r| == if a.duration > 0 then a.duration else 0
    ensures forall x :: x in r <==> a.arrival <= x < DepartureDate(a)
  {
    var r := StayRun(a.arrival, a.duration);
    assert forall x :: x in r <==> a.arrival <= x < DepartureDate(a) by {
      forall x ensures x in r <==> a.arrival <= x < DepartureDate(a) {
        StayRunMembership(a.arrival, a.duration, x);
      }
    }
    r
  }

  /** Two lists of days have a day in common (the source's
      `any(date in booked for date in requested)`). */
  ghost predicate SharesDay(xs: seq<int>, ys: seq<int>) {
    exists i :: 0 <= i < |xs| && xs[i] in ys
  }

  /** Half-open intervals [a, a + n) and [b, b + m) intersect. */
  predicate Overlaps(a: int, n: int, b: int, m: int) {
    n > 0 && m > 0 && a < b + m && b < a + n
  }

  /** Sharing a day between two stays is the same as their half-open
      intervals overlapping. */
  lemma SharesDayIffOverlaps(a: int, n: int, b: int, m: int)
    ensures SharesDay(StayRun(a, n), StayRun(b, m)) <==> Overlaps(a, n, b, m)
  {
    var xs, ys := StayRun(a, n), StayRun(b, m);
    if SharesDay(xs, ys) {
      var i :| 0 <= i < |xs| && xs[i] in ys;
      StayRunMembership(b, m, xs[i]);
    }
    if Overlaps(a, n, b, m) {
      var x := if a < b then b else a;
      assert xs[x - a] == x;
      StayRunMembership(b, m, x);
    }
  }

  /** Sharing a day does not depend on which list is scanned. */
  lemma SharesDaySymmetric(a: int, n: int, b: int, m: int)
    ensures SharesDay(StayRun(a, n), StayRun(b, m)) <==> SharesDay(StayRun(b, m), StayRun(a, n))
  {
    SharesDayIffOverlaps(a, n, b, m);
    SharesDayIffOverlaps(b, m, a, n);
  }

  /** Back-to-back stays do not conflict: a guest arriving on another's
      departure day, or leaving on another's arrival day, shares no day. */
  lemma AdjacentStaysDoNotConflict(a: Appointment, b: Appointment)
    requires DepartureDate(a) == b.arrival || DepartureDate(b) == a.arrival
    ensures !SharesDay(StayDates(a), StayDates(b))
  {
    SharesDayIffOverlaps(a.arrival, a.duration, b.arrival, b.duration);
  }
}
