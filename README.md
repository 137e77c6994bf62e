# Lodging reservation core, modelled in Dafny

This project models the reservation core of `apt.py`, a small console booking program for a lodging. An
appointment records who booked, how many guests come, how many days they stay and the arrival
date. From these it derives a departure date and the list of days it occupies. Those are
`duration` consecutive days from the arrival day, with the departure day excluded. The program keeps
every appointment in one module-level list. A new booking is appended to that list only after its
guest count, stay length and date text pass their checks and none of the requested days is already
booked. An operator can list all bookings in the order they were made.

The model has four modules:

- `Calendar` (calendar.dfy) covers Gregorian dates. It gives the validity rules that
  `datetime.strptime(s, '%m/%d/%Y')` applies and the text `strftime('%m/%d/%Y')` writes. It also gives
  the day ordinal (01/01/0001 is day 1, as in Python's `date.toordinal`). With ordinals,
  `date + timedelta(days=i)` is integer addition.
  `NextDayOrdinal` proves that adding one to an ordinal moves to the next calendar day, across month
  ends, year ends and leap days. `ToOrdinalInjective` and `FormatInjective` prove that comparing
  ordinals, comparing dates and comparing formatted date texts all give the same answer.
- `Reservation` (appointment.dfy) holds the `Appointment` value, its departure date and its stay
  dates. It also proves that "shares a calendar day" is the same as half-open interval overlap.
- `Booking` (store.dfy) holds the store, the class `AppointmentBook`, whose `appointments` field is a
  `seq` that the booking step replaces with `old + [new]`. It includes the availability scan, written
  as the source's nested loop with an early exit. The store invariant `Valid()` says no calendar day
  is booked twice and every stored appointment passed the input checks.
- `Scenarios` (scenarios.dfy) holds client methods and lemmas that exercise the contracts on
  concrete requests. It covers the January 2024 back-to-back and overlap cases, rejected inputs and the
  listing after one booking.

The date text is parsed once, at the boundary. An `Appointment` keeps the text as typed, because the
listing prints it verbatim. It also keeps the ordinal that text parses to, and `WellFormed` ties the
two together. The source re-parses the text in every method. Because the text was validated before
it was stored, re-parsing always gives the same day.

Three behaviours of the code shape the model:

- An unparsable or unavailable date does not end the request in the code. It makes the program ask
  for another date. The model covers one attempt, and `MakeAppointment` returns
  `Rejected(MalformedDate)` or `Rejected(DateUnavailable)` where the code would ask again.
- The code checks availability inside `make_appointment` itself, right before the append. So the
  store never takes an unchecked appointment.
- The listing shows the arrival date exactly as typed (for example `1/5/2024`). Only the departure
  date and the booked dates are reformatted.

## Model

| member | source | states |
|---|---|---|
| Calendar.ParseDate | apt.py:61 | every date the `%m/%d/%Y` parse accepts is a real date: year 1 to 9999, month 1 to 12, day within that month's length in that year |
| Calendar.ParseFormat | apt.py:15-17 | reading back the MM/DD/YYYY text that `Format` (the model of `strftime`) writes for a valid date gives that same date |
| Calendar.FormatInjective | apt.py:37 | two valid dates have the same `Format` text exactly when they are the same date, so the source's comparison of date texts is comparison of dates |
| Calendar.NextDayOrdinal | apt.py:16 | one day of `timedelta` is one `ToOrdinal` step: the next calendar day has the next ordinal, across month ends, year ends and 29 February |
| Calendar.ToOrdinalMonotone | apt.py:21-23 | `ToOrdinal` follows calendar order, so a run of increasing ordinals is a run of later and later dates |
| Calendar.ToOrdinalInjective | apt.py:37 | two valid dates have the same `ToOrdinal` value exactly when they are equal, so date equality is ordinal equality |
| Reservation.StayRun | apt.py:23 | the run of days `range(duration)` produces has `duration` entries (none for a non-positive duration); the first is the arrival day and entry i is arrival + i, so each entry is one day after the previous |
| Reservation.StayRunMembership | apt.py:23 | a day is among the stay dates exactly when it lies in the half-open interval from arrival up to, but not including, arrival + duration |
| Reservation.DepartureDate | apt.py:13-17 | the departure day is never one of the stay days, and for a positive duration it is the last stay day plus one |
| Reservation.StayDates | apt.py:19-23 | an appointment occupies `duration` days (none for a non-positive duration), and a day is among them exactly when it lies from the arrival day up to, but not including, the departure day |
| Reservation.SharesDayIffOverlaps | apt.py:37 | two stays have a day in common (`SharesDay`, the source's `any(date in ...)`) exactly when their half-open intervals overlap |
| Reservation.SharesDaySymmetric | apt.py:37 | whether two stays share a day (`SharesDay`) does not depend on which stay's days are scanned |
| Reservation.AdjacentStaysDoNotConflict | apt.py:16-23 | a stay that starts on another's departure day, or ends where another starts, shares no day with it |
| Booking.EmptyStoreAvailable | apt.py:36-39 | with no stored appointment every request is available |
| Booking.AvailableIffNoOverlap | apt.py:29-39 | a request is available exactly when its interval overlaps no stored appointment's interval |
| Booking.AvailableAfterAppend | apt.py:36-39 | availability against a store with one more appointment is availability against the old store and also against the new appointment |
| Booking.AdjacentRequestsAvailable | apt.py:32-37 | a request arriving on a stored stay's departure day, or ending on its arrival day, is available with respect to that stay |
| Booking.AppendPreservesDisjoint | apt.py:62-71 | appending an appointment whose days passed the availability check keeps every calendar day booked at most once |
| Booking.DisjointIffNoOverlap | apt.py:62-71 | the no-double-booking invariant is equivalent to the stored stays' intervals being pairwise non-overlapping |
| Booking.CheckRequest | apt.py:48-61 | a request passes the input checks exactly when guests > 0, duration > 0 and the date text parses; the failures come in the source's order (guests, then duration, then date); on success the result is the parsed date's ordinal |
| Booking.Describe | apt.py:92-101 | one listing entry carries the appointment's number and fields unchanged, its departure day (arrival plus duration), and its booked days, which are `duration` days from the arrival day up to, not including, the departure day |
| Booking.AppointmentBook.constructor | apt.py:27 | the store starts empty and satisfies its invariant |
| Booking.AppointmentBook.IsDateAvailable | apt.py:29-39 | the scan over appointments and requested days answers true exactly when no stored appointment occupies a requested day, and changes nothing |
| Booking.AppointmentBook.MakeAppointment | apt.py:49-71 | the appointment is appended at the end exactly when the input checks and the availability check pass; earlier entries stay in order; on any failure the store is unchanged and the reason is the first failing check; the no-double-booking invariant is kept |
| Booking.AppointmentBook.ViewAppointments | apt.py:85-101 | one entry per stored appointment, in booking order, numbered from 1, each the `Describe` entry of that appointment |
| Scenarios.ParsesJanuary1 | apt.py:61 | "01/01/2024" parses to 1 January 2024 |
| Scenarios.RejectsMonth13 | apt.py:61 | "13/40/2024" is refused |
| Scenarios.AcceptsLeapDay | apt.py:61 | "02/29/2024" is 29 February 2024 |
| Scenarios.RejectsLeapDayOfCommonYear | apt.py:61 | "02/29/2023" is refused |
| Scenarios.RejectsYearZero | apt.py:61 | "01/01/0000" is refused (year 0 is out of range) |
| Scenarios.RejectsLongDay | apt.py:61 | a three-digit day field is refused |
| Scenarios.AcceptsShortFields | apt.py:61 | one-digit month and day fields are accepted ("1/5/2024") |
| Scenarios.RepeatedCheckAgrees | apt.py:29-39 | two availability checks with no booking in between give the same answer |
| Scenarios.ParsesJanuary3 | apt.py:61 | "01/03/2024" parses to 3 January 2024, whose ordinal is two more than that of 1 January 2024 |
| Scenarios.ParsesJanuary4 | apt.py:61 | "01/04/2024" parses to 4 January 2024, whose ordinal is three more than that of 1 January 2024 |
| Scenarios.JanuaryRequestsChecked | apt.py:48-61 | the requests (2 guests, 3 days, "01/01/2024"), (1, 2, "01/04/2024") and (1, 2, "01/03/2024") pass the input checks with the arrival days 1, 4 and 3 January 2024 |
| Scenarios.AfterThreeDayStay | apt.py:29-39 | against a 3-day stay, 2 days from its departure day are free, and 2 days from its last day are taken whatever is stored after it |
| Scenarios.ThreeDaysFromNewYear | apt.py:13-23 | a 3-day stay from 1 January 2024 departs on 4 January 2024 and occupies 1, 2 and 3 January 2024 |
| Scenarios.BookAlice | apt.py:49-71 | in an empty store, Alice's request for 01/01/2024 for 3 days is scheduled and becomes the only stored appointment |
| Scenarios.BookBob | apt.py:49-71 | with Alice's 3-day stay from 01/01/2024 stored, Bob's request for 01/04/2024 for 2 days is scheduled and appended after hers |
| Scenarios.BookAvailable | apt.py:49-71 | a checked 2-day request starting on the departure day of the only stored 3-day stay is scheduled and appended |
| Scenarios.RejectCarol | apt.py:49-71 | with Alice's 3-day stay from 01/01/2024 stored first, Carol's request for 01/03/2024 for 2 days is rejected as unavailable and the store is unchanged |
| Scenarios.RejectTaken | apt.py:49-71 | a checked 2-day request starting on the last day of the first stored 3-day stay is rejected as unavailable and the store is unchanged |
| Scenarios.BackToBackAndOverlap | apt.py:29-71 | in a fresh store, booking 01/01/2024 for 3 days, then 01/04/2024 for 2 days, then 01/03/2024 for 2 days: the first two requests are scheduled and the third is rejected as unavailable |
| Scenarios.InvalidRequestsChangeNothing | apt.py:49-67 | zero guests, a stay of -1 days and the date "13/40/2024" are each rejected for that reason and leave the store unchanged |
| Scenarios.SingleBookingListing | apt.py:93-101 | after one booking of 01/01/2024 for 3 days, the listing has one entry numbered 1, departing 01/04/2024, with booked dates 01/01, 01/02 and 01/03/2024 |

## Left out

- Console I/O is not modelled: `input()` prompts, confirmation text and listing text (apt.py:43-44, 73-79, 87-101). The listing returns values, not printed lines.
- `main` is not modelled: role selection and the yes/no continue loop (apt.py:103-135) are interactive control flow.
- The re-prompt loop around the date (apt.py:58-67) is not modelled. `MakeAppointment` is one attempt, and its `Rejected(MalformedDate)` and `Rejected(DateUnavailable)` results are where the source would ask again.
- Turning the typed guest count and stay length into integers (`int(...)`, which raises ValueError on non-numeric text) is not modelled. The model takes them as integers.
- Calendar.ParseDate: Python's `\d` matches non-ASCII decimal digits too, both in the `%Y` pattern and in the `[12]\d` branch of the `%d` pattern. The model accepts ASCII digits only.
- Dates past 12/31/9999 are not modelled. Ordinals are unbounded, while the source raises an uncaught OverflowError when a stay or request runs past that day.
- Calendar.Format always zero-pads the year to four digits. For years below 1000 the platform's `strftime` may not pad, which changes the text but not which dates are equal.
- Turning an ordinal back into a date (`date.fromordinal`) and then into text is not modelled. The listing shows departure and booked dates as ordinals. `NextDayOrdinal` and `ToOrdinalInjective` tie ordinals to calendar dates.
- Concurrency is not modelled: the check-then-append sequence runs single-threaded in the source.
