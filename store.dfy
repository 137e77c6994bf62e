/** The booking store: the process-wide list of appointments, the
    availability check that guards it, the single check-then-commit step of a
    booking request, and the in-order listing. */
module Booking {
  import opened Calendar
  import opened Reservation

  /** No stored appointment occupies any day of [arrival, arrival + duration). */
  ghost predicate Available(apps: seq<Appointment>, arrival: int, duration: int) {
    forall k :: 0 <= k < |apps| ==> !SharesDay(StayRun(arrival, duration), StayDates(apps[k]))
  }

  /** No calendar day is occupied by two stored appointments. */
  ghost predicate Disjoint(apps: seq<Appointment>) {
    forall j, k :: 0 <= j < k < |apps| ==> !SharesDay(StayDates(apps[j]), StayDates(apps[k]))
  }

  /** Every request is available in an empty store. */
  lemma EmptyStoreAvailable(arrival: int, duration: int)
    ensures Available([], arrival, duration)
  {
  }

  /** Availability is half-open interval disjointness from every stored stay. */
  lemma AvailableIffNoOverlap(apps: seq<Appointment>, arrival: int, duration: int)
    ensures Available(apps, arrival, duration) <==>
      forall k :: 0 <= k < |apps| ==> !Overlaps(arrival, duration, apps[k].arrival, apps[k].duration)
  {
    forall k | 0 <= k < |apps| {
      SharesDayIffOverlaps(arrival, duration, apps[k].arrival, apps[k].duration);
    }
  }

  /** The no-double-booking invariant, stated on intervals. */
  lemma DisjointIffNoOverlap(apps: seq<Appointment>)
    ensures Disjoint(apps) <==>
      forall j, k :: 0 <= j < k < |apps| ==>
        !Overlaps(apps[j].arrival, apps[j].duration, apps[k].arrival, apps[k].duration)
  {
    forall j, k | 0 <= j < k < |apps| {
      SharesDayIffOverlaps(apps[j].arrival, apps[j].duration, apps[k].arrival, apps[k].duration);
    }
  }

  /** Appending a stay that the availability check accepted keeps every
      calendar day booked at most once. */
  lemma AppendPreservesDisjoint(apps: seq<Appointment>, x: Appointment)
    requires Disjoint(apps)
    requires Available(apps, x.arrival, x.duration)
    ensures Disjoint(apps + [x])
  {
    var all := apps + [x];
    forall j, k | 0 <= j < k < |all|
      ensures !SharesDay(StayDates(all[j]), StayDates(all[k]))
    {
      if k == |apps| {
        SharesDaySymmetric(x.arrival, x.duration, all[j].arrival, all[j].duration);
      }
    }
  }

  /** Availability against a longer store is availability against the older
      entries and against the new one. */
  lemma AvailableAfterAppend(apps: seq<Appointment>, x: Appointment, arrival: int, duration: int)
    ensures Available(apps + [x], arrival, duration) <==>
      Available(apps, arrival, duration) && !SharesDay(StayRun(arrival, duration), StayDates(x))
  {
    var all := apps + [x];
    assert all[|apps|] == x;
    forall k | 0 <= k < |apps| ensures all[k] == apps[k] { }
  }

  /** A request that starts on a stored stay's departure day, or ends on its
      arrival day, is available as far as that stay goes. */
  lemma AdjacentRequestsAvailable(b: Appointment, duration: int)
    ensures Available([b], DepartureDate(b), duration)
    ensures Available([b], b.arrival - duration, duration)
  {
    SharesDayIffOverlaps(DepartureDate(b), duration, b.arrival, b.duration);
    SharesDayIffOverlaps(b.arrival - duration, duration, b.arrival, b.duration);
  }

  /** Why a booking request was turned down. */
  datatype Rejection = NonPositiveGuests | NonPositiveDuration | MalformedDate | DateUnavailable

  datatype Checked = Accepted(arrival: int) | Refused(reason: Rejection)

  /** The input checks of a booking request, in the source's order: guest
      count, then stay length, then the date text. On success, the arrival
      day ordinal. */
  function CheckRequest(guests: int, duration: int, targetDate: string): (r: Checked)
    ensures r.Accepted? <==> guests > 0 && duration > 0 && ParseDate(targetDate).Some?
    ensures r.Accepted? ==> r.arrival == ToOrdinal(ParseDate(targetDate).value)
    ensures guests <= 0 ==> r == Refused(NonPositiveGuests)
    ensures guests > 0 && duration <= 0 ==> r == Refused(NonPositiveDuration)
    ensures guests > 0 && duration > 0 && ParseDate(targetDate).None? ==> r == Refused(MalformedDate)
  {
    if guests <= 0 then Refused(NonPositiveGuests)
    else if duration <= 0 then Refused(NonPositiveDuration)
    else match ParseDate(targetDate)
      case None => Refused(MalformedDate)
      case Some(date) => Accepted(ToOrdinal(date))
  }

  datatype Outcome = Scheduled(appointment: Appointment) | Rejected(reason: Rejection)

  /** What the listing shows of one appointment: its position (from 1), its
      fields, its departure date and its booked dates. */
  datatype Listing = Listing(
    number: int,
    ownerName: string,
    contactNumber: string,
    guests: int,
    duration: int,
    targetDate: string,
    departure: int,
    bookedDates: seq<int>)

  function Describe(number: int, a: Appointment): (r: Listing)
    ensures r.number == number && r.targetDate == a.targetDate
    ensures r.ownerName == a.ownerName && r.contactNumber == a.contactNumber
    ensures r.guests == a.guests && r.duration == a.duration
    ensures r.departure !in r.bookedDates
    ensures |r.bookedDates| == if a.duration > 0 then a.duration else 0
    ensures forall x :: x in r.bookedDates <==> a.arrival <= x < r.departure
    ensures r.departure == a.arrival + a.duration
  {
    Listing(number, a.ownerName, a.contactNumber, a.guests, a.duration, a.targetDate,
            DepartureDate(a), StayDates(a))
  }

  class AppointmentBook {
    /** The appointments in booking order. */
    var appointments: seq<Appointment>

    ghost predicate Valid()
      reads this
    {
      Disjoint(appointments) &&
      forall k :: 0 <= k < |appointments| ==> WellFormed(appointments[k])
    }

    /** The store starts empty. */
    constructor ()
      ensures Valid() && appointments == []
    {
      appointments := [];
    }

    /** Scans the stored appointments in order and, for each, the requested
        days in order, answering false at the first requested day that is
        already booked. Changes nothing. */
    method IsDateAvailable(arrival: int, duration: int) returns (available: bool)
      ensures available == Available(appointments, arrival, duration)
    {
      var requested := StayRun(arrival, duration);
      var k := 0;
      while k < |appointments|
        invariant 0 <= k <= |appointments|
        invariant forall j :: 0 <= j < k ==> !SharesDay(requested, StayDates(appointments[j]))
      {
        var booked := StayDates(appointments[k]);
        var i := 0;
        while i < |requested|
          invariant 0 <= i <= |requested|
          invariant forall t :: 0 <= t < i ==> requested[t] !in booked
        {
          if requested[i] in booked {
            return false;
          }
          i := i + 1;
        }
        k := k + 1;
      }
      return true;
    }

    /** One booking attempt: the input checks, then the availability check,
        then the append. A rejected request leaves the store as it was. */
    method MakeAppointment(ownerName: string, contactNumber: string, guests: int,
                           duration: int, targetDate: string) returns (outcome: Outcome)
      requires Valid()
      modifies this
      ensures Valid()
      ensures outcome.Scheduled? <==>
        CheckRequest(guests, duration, targetDate).Accepted? &&
        Available(old(appointments), CheckRequest(guests, duration, targetDate).arrival, duration)
      ensures outcome.Scheduled? ==>
        outcome.appointment == Appointment(ownerName, contactNumber, guests, duration, targetDate,
                                           CheckRequest(guests, duration, targetDate).arrival) &&
        appointments == old(appointments) + [outcome.appointment]
      ensures outcome.Rejected? ==>
        appointments == old(appointments) &&
        outcome.reason == (if CheckRequest(guests, duration, targetDate).Refused?
                           then CheckRequest(guests, duration, targetDate).reason
                           else DateUnavailable)
    {
      var checked := CheckRequest(guests, duration, targetDate);
      if checked.Refused? {
        return Rejected(checked.reason);
      }
      var free := IsDateAvailable(checked.arrival, duration);
      if !free {
        return Rejected(DateUnavailable);
      }
      var a := Appointment(ownerName, contactNumber, guests, duration, targetDate, checked.arrival);
      AppendPreservesDisjoint(appointments, a);
      appointments := appointments + [a];
      return Scheduled(a);
    }

    /** The appointments in booking order, numbered from 1, each with its
        departure date and booked dates. Changes nothing. */
    method ViewAppointments() returns (listing: seq<Listing>)
      ensures |listing| == |appointments|
      ensures forall i :: 0 <= i < |listing| ==> listing[i] == Describe(i + 1, appointments[i])
    {
      listing := [];
      var i := 0;
      while i < |appointments|
        invariant 0 <= i <= |appointments|
        invariant |listing| == i
        invariant forall t :: 0 <= t < i ==> listing[t] == Describe(t + 1, appointments[t])
      {
        listing := listing + [Describe(i + 1, appointments[i])];
        i := i + 1;
      }
    }
  }
}
