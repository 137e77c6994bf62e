/** Clients of the booking store that exercise its contracts on concrete
    requests: the availability answer is stable, back-to-back stays are
    accepted, overlapping ones and malformed requests are turned down, and the
    listing shows the computed dates. */
module Scenarios {
  import opened Calendar
  import opened Reservation
  import opened Booking

  lemma ParsesJanuary1()
    ensures ParseDate("01/01/2024") == Some(Date(1, 1, 2024))
  {
    assert Pad2(1) == "01" && Pad4(2024) == "2024";
    assert Format(Date(1, 1, 2024)) == "01/01/2024";
    ParseFormat(Date(1, 1, 2024));
  }

  /** Texts that `strptime` refuses: month 13 (with day 40). */
  lemma RejectsMonth13()
    ensures ParseDate("13/40/2024").None?
  {
    var s := "13/40/2024";
    assert s[1] != '/' && s[2] == '/' && s[..2] == "13";
    assert "13"[..1] == "1" && "1"[..0] == "";
    assert MonthField("13").None?;
  }

  /** 29 February exists in the leap year 2024 ... */
  lemma AcceptsLeapDay()
    ensures ParseDate("02/29/2024") == Some(Date(2, 29, 2024))
  {
    assert Pad2(2) == "02" && Pad2(29) == "29" && Pad4(2024) == "2024";
    assert Format(Date(2, 29, 2024)) == "02/29/2024";
    ParseFormat(Date(2, 29, 2024));
  }

  /** ... and not in the common year 2023. */
  lemma RejectsLeapDayOfCommonYear()
    ensures ParseDate("02/29/2023").None?
  {
    var s := "02/29/2023";
    assert s[1] != '/' && s[2] == '/' && s[..2] == "02" && s[3..] == "29/2023";
    var rest := "29/2023";
    assert rest[1] != '/' && rest[2] == '/' && rest[..2] == "29" && rest[3..] == "2023";
    assert YearField("2023").Some?;
  }

  /** Year 0 is outside the range of dates. */
  lemma RejectsYearZero()
    ensures ParseDate("01/01/0000").None?
  {
    var s := "01/01/0000";
    assert s[1] != '/' && s[2] == '/' && s[..2] == "01" && s[3..] == "01/0000";
    var rest := "01/0000";
    assert rest[1] != '/' && rest[2] == '/' && rest[..2] == "01" && rest[3..] == "0000";
    assert "0000"[..3] == "000" && "000"[..2] == "00" && "00"[..1] == "0" && "0"[..0] == "";
    assert YearField("0000") == Some(0);
  }

  /** A day field of three characters does not match `%d`. */
  lemma RejectsLongDay()
    ensures ParseDate("01/001/2024").None?
  {
    var s := "01/001/2024";
    assert s[1] != '/' && s[2] == '/' && s[3..] == "001/2024";
    var rest := "001/2024";
    assert rest[1] != '/' && rest[2] != '/';
  }

  /** One-digit month and day fields are read. */
  lemma AcceptsShortFields()
    ensures ParseDate("1/5/2024") == Some(Date(1, 5, 2024))
  {
    var s := "1/5/2024";
    assert s[1] == '/' && s[..1] == "1" && s[2..] == "5/2024";
    var rest := "5/2024";
    assert rest[1] == '/' && rest[..1] == "5" && rest[2..] == "2024";
    assert "1"[..0] == "" && "5"[..0] == "";
    assert Pad4(2024) == "2024";
    Pad4Value(2024);
  }

  /** Asking twice about the same request, with no booking in between, gives
      the same answer. */
  method RepeatedCheckAgrees(book: AppointmentBook, arrival: int, duration: int)
    returns (first: bool, second: bool)
    ensures first == second
  {
    first := book.IsDateAvailable(arrival, duration);
    second := book.IsDateAvailable(arrival, duration);
  }

  /** "01/03/2024" is the date two days after 01/01/2024. */
  lemma ParsesJanuary3()
    ensures ParseDate("01/03/2024") == Some(Date(1, 3, 2024))
    ensures ToOrdinal(Date(1, 3, 2024)) == ToOrdinal(Date(1, 1, 2024)) + 2
  {
    assert Pad2(1) == "01" && Pad2(3) == "03" && Pad4(2024) == "2024";
    assert Format(Date(1, 3, 2024)) == "01/03/2024";
    ParseFormat(Date(1, 3, 2024));
  }

  /** "01/04/2024" is the date three days after 01/01/2024. */
  lemma ParsesJanuary4()
    ensures ParseDate("01/04/2024") == Some(Date(1, 4, 2024))
    ensures ToOrdinal(Date(1, 4, 2024)) == ToOrdinal(Date(1, 1, 2024)) + 3
  {
    assert Pad2(1) == "01" && Pad2(4) == "04" && Pad4(2024) == "2024";
    assert Format(Date(1, 4, 2024)) == "01/04/2024";
    ParseFormat(Date(1, 4, 2024));
  }

  /** The three January requests pass the input checks. */
  lemma JanuaryRequestsChecked()
    ensures CheckRequest(2, 3, "01/01/2024") == Accepted(ToOrdinal(Date(1, 1, 2024)))
    ensures CheckRequest(1, 2, "01/04/2024") == Accepted(ToOrdinal(Date(1, 1, 2024)) + 3)
    ensures CheckRequest(1, 2, "01/03/2024") == Accepted(ToOrdinal(Date(1, 1, 2024)) + 2)
  {
    ParsesJanuary1();
    ParsesJanuary3();
    ParsesJanuary4();
  }

  /** Against a 3-day stay, a 2-day request starting the day after it ends
      is free and one starting on its last day is not, whatever follows it
      in the store. */
  lemma AfterThreeDayStay(a: Appointment, rest: seq<Appointment>)
    requires a.duration == 3
    ensures Available([a], a.arrival + 3, 2)
    ensures !Available([a] + rest, a.arrival + 2, 2)
  {
    AdjacentRequestsAvailable(a, 2);
    SharesDayIffOverlaps(a.arrival + 2, 2, a.arrival, 3);
    assert ([a] + rest)[0] == a;
  }

  /** Alice books 01/01/2024 for 3 days in an empty store. */
  method BookAlice() returns (book: AppointmentBook, alice: Outcome)
    ensures fresh(book) && book.Valid()
    ensures alice == Scheduled(Appointment("Alice", "555", 2, 3, "01/01/2024", ToOrdinal(Date(1, 1, 2024))))
    ensures book.appointments == [alice.appointment]
  {
    book := new AppointmentBook();
    var jan1 := "01/01/2024";
    JanuaryRequestsChecked();
    EmptyStoreAvailable(ToOrdinal(Date(1, 1, 2024)), 3);
    alice := book.MakeAppointment("Alice", "555", 2, 3, jan1);
  }

  /** Bob asks for 01/04/2024 for 2 days, the day Alice's 3-day stay from
      01/01/2024 departs; the request is booked after hers. */
  method BookBob(book: AppointmentBook, a: Appointment) returns (bob: Outcome)
    requires book.Valid() && book.appointments == [a]
    requires a.arrival == ToOrdinal(Date(1, 1, 2024)) && a.duration == 3
    modifies book
    ensures book.Valid() && bob.Scheduled?
    ensures book.appointments == [a, bob.appointment]
  {
    JanuaryRequestsChecked();
    bob := BookAvailable(book, a, "Bob", "1", 1, 2, "01/04/2024");
  }

  /** A request that passes the input checks and asks for the two days after
      a 3-day stay, the only one stored, is booked after it. */
  method BookAvailable(book: AppointmentBook, a: Appointment, ownerName: string,
                       contactNumber: string, guests: int, duration: int, targetDate: string)
    returns (outcome: Outcome)
    requires book.Valid() && book.appointments == [a] && a.duration == 3 && duration == 2
    requires CheckRequest(guests, duration, targetDate) == Accepted(a.arrival + 3)
    modifies book
    ensures book.Valid() && outcome.Scheduled?
    ensures book.appointments == [a, outcome.appointment]
  {
    AfterThreeDayStay(a, []);
    outcome := book.MakeAppointment(ownerName, contactNumber, guests, duration, targetDate);
  }

  /** Carol asks for 01/03/2024 for 2 days, the last day of Alice's 3-day
      stay from 01/01/2024; the request is turned down as unavailable. */
  method RejectCarol(book: AppointmentBook, a: Appointment, rest: seq<Appointment>)
    returns (carol: Outcome)
    requires book.Valid() && book.appointments == [a] + rest
    requires a.arrival == ToOrdinal(Date(1, 1, 2024)) && a.duration == 3
    modifies book
    ensures book.Valid() && book.appointments == [a] + rest
    ensures carol == Rejected(DateUnavailable)
  {
    JanuaryRequestsChecked();
    carol := RejectTaken(book, a, rest, "Carol", "2", 1, 2, "01/03/2024");
  }

  /** A request that passes the input checks and asks for the last day of a
      3-day stay, the first one stored, is turned down as unavailable. */
  method RejectTaken(book: AppointmentBook, a: Appointment, rest: seq<Appointment>,
                     ownerName: string, contactNumber: string, guests: int, duration: int,
                     targetDate: string)
    returns (outcome: Outcome)
    requires book.Valid() && book.appointments == [a] + rest && a.duration == 3 && duration == 2
    requires CheckRequest(guests, duration, targetDate) == Accepted(a.arrival + 2)
    modifies book
    ensures book.Valid() && book.appointments == [a] + rest
    ensures outcome == Rejected(DateUnavailable)
  {
    AfterThreeDayStay(a, rest);
    outcome := book.MakeAppointment(ownerName, contactNumber, guests, duration, targetDate);
  }

  /** After Alice books 01/01/2024 for 3 days (occupying 01/01 to 01/03 and
      departing 01/04), Bob's request for 01/04/2024 for 2 days is booked
      after hers and Carol's for 01/03/2024 for 2 days is turned down. */
  method BackToBackAndOverlap() returns (alice: Outcome, bob: Outcome, carol: Outcome)
    ensures alice.Scheduled? && bob.Scheduled?
    ensures carol == Rejected(DateUnavailable)
  {
    var book;
    book, alice := BookAlice();
    bob := BookBob(book, alice.appointment);
    carol := RejectCarol(book, alice.appointment, [bob.appointment]);
  }

  /** Zero guests, a negative stay length and the text "13/40/2024" are each
      rejected, and the store keeps its contents. */
  method InvalidRequestsChangeNothing(book: AppointmentBook)
    returns (guests: Outcome, length: Outcome, date: Outcome)
    requires book.Valid()
    modifies book
    ensures book.Valid() && book.appointments == old(book.appointments)
    ensures guests == Rejected(NonPositiveGuests)
    ensures length == Rejected(NonPositiveDuration)
    ensures date == Rejected(MalformedDate)
  {
    RejectsMonth13();
    guests := book.MakeAppointment("Alice", "555", 0, 3, "01/01/2024");
    length := book.MakeAppointment("Alice", "555", 2, -1, "01/01/2024");
    date := book.MakeAppointment("Alice", "555", 2, 3, "13/40/2024");
  }

  /** A 3-day stay from 01/01/2024 departs 01/04/2024 and occupies 01/01,
      01/02 and 01/03/2024. */
  lemma ThreeDaysFromNewYear(a: Appointment)
    requires a.arrival == ToOrdinal(Date(1, 1, 2024)) && a.duration == 3
    ensures DepartureDate(a) == ToOrdinal(Date(1, 4, 2024))
    ensures StayDates(a) ==
      [ToOrdinal(Date(1, 1, 2024)), ToOrdinal(Date(1, 2, 2024)), ToOrdinal(Date(1, 3, 2024))]
  {
    NextDayOrdinal(Date(1, 1, 2024));
    NextDayOrdinal(Date(1, 2, 2024));
    NextDayOrdinal(Date(1, 3, 2024));
    var j := a.arrival;
    assert StayDates(a) == StayRun(j, 3) == [j, j + 1, j + 2];
  }

  /** After one booking of 01/01/2024 for 3 days, the listing has a single
      entry departing 01/04/2024 with booked dates 01/01, 01/02 and 01/03. */
  method SingleBookingListing() returns (listing: seq<Listing>)
    ensures |listing| == 1
    ensures listing[0].number == 1 && listing[0].ownerName == "Alice"
    ensures listing[0].departure == ToOrdinal(Date(1, 4, 2024))
    ensures listing[0].bookedDates ==
      [ToOrdinal(Date(1, 1, 2024)), ToOrdinal(Date(1, 2, 2024)), ToOrdinal(Date(1, 3, 2024))]
  {
    var book, outcome := BookAlice();
    var a := outcome.appointment;
    ThreeDaysFromNewYear(a);
    listing := book.ViewAppointments();
    assert listing[0] == Describe(1, a);
  }
}
