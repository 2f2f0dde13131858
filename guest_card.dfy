/**
 * The guest card: statistics over the guest's bookings, the full name composed
 * when an edit is saved, the age and date-of-birth fields that follow each
 * other while editing, and the booking history excerpt.
 */
module GuestCard {
  import opened Wrappers
  import opened Seqs
  import opened Text
  import opened BookingTypes

  /**
   * `activeBookings`: the checked-in bookings. The source also accepts a status
   * "active", which no booking can carry.
   */
  function ActiveBookings(bookings: seq<Booking>): (r: seq<Booking>)
    ensures forall b :: b in r <==> b in bookings && b.info.status.CheckedIn?
  {
    Filter(bookings, (b: Booking) => b.info.status.CheckedIn?)
  }

  function CompletedBookings(bookings: seq<Booking>): (r: seq<Booking>)
    ensures forall b :: b in r <==> b in bookings && b.info.status.Completed?
  {
    Filter(bookings, (b: Booking) => b.info.status.Completed?)
  }

  /** `totalStays`: the number of completed bookings. */
  function TotalStays(bookings: seq<Booking>): (n: nat)
    ensures n <= |bookings|
  {
    |CompletedBookings(bookings)|
  }

  /** A guest cannot have more active and completed stays together than bookings. */
  lemma {:induction false} ActiveAndCompletedWithinBookings(bookings: seq<Booking>)
    ensures |ActiveBookings(bookings)| + TotalStays(bookings) <= |bookings|
  {
    if bookings != [] {
      ActiveAndCompletedWithinBookings(bookings[1..]);
    }
  }

  /** `booking.totalAmount || 0`: a missing amount counts as nothing. */
  function Amount(b: Booking): (r: int)
    ensures b.info.totalAmount.None? ==> r == 0
    ensures b.info.totalAmount.Some? ==> r == b.info.totalAmount.value
  {
    b.info.totalAmount.GetOr(0)
  }

  /** `totalSpent`: the amounts added up from the first booking to the last, as `reduce` folds them. */
  function TotalSpent(bookings: seq<Booking>): (r: int)
    ensures bookings == [] ==> r == 0
    ensures |bookings| == 1 ==> r == Amount(bookings[0])
    ensures (forall i :: 0 <= i < |bookings| ==> Amount(bookings[i]) >= 0) ==> r >= 0
  {
    if bookings == [] then 0
    else
      var init := bookings[..|bookings| - 1];
      assert forall i :: 0 <= i < |init| ==> init[i] == bookings[i];
      TotalSpent(init) + Amount(bookings[|bookings| - 1])
  }

  /** The total over two lists of bookings is the sum of their totals. */
  lemma {:induction false} TotalSpentAppend(a: seq<Booking>, b: seq<Booking>)
    ensures TotalSpent(a + b) == TotalSpent(a) + TotalSpent(b)
  {
    if b == [] {
      assert a + b == a;
    } else {
      assert (a + b)[..|a + b| - 1] == a + b[..|b| - 1];
      TotalSpentAppend(a, b[..|b| - 1]);
    }
  }

  /** With no negative amount the total is at least every single amount, and so never negative. */
  lemma {:induction false} TotalSpentBounds(bookings: seq<Booking>)
    requires forall i :: 0 <= i < |bookings| ==> Amount(bookings[i]) >= 0
    ensures TotalSpent(bookings) >= 0
    ensures forall i :: 0 <= i < |bookings| ==> Amount(bookings[i]) <= TotalSpent(bookings)
  {
    if bookings != [] {
      var init := bookings[..|bookings| - 1];
      TotalSpentBounds(init);
      assert forall i :: 0 <= i < |init| ==> init[i] == bookings[i];
    }
  }

  /** Folding from the front gives the same total: the first amount plus the total of the rest. */
  lemma TotalSpentFront(bookings: seq<Booking>)
    requires bookings != []
    ensures TotalSpent(bookings) == Amount(bookings[0]) + TotalSpent(bookings[1..])
  {
    assert bookings == [bookings[0]] + bookings[1..];
    TotalSpentAppend([bookings[0]], bookings[1..]);
  }

  /** Bookings without an amount add nothing. */
  lemma {:induction false} UnpricedBookingsAddNothing(bookings: seq<Booking>)
    requires forall i :: 0 <= i < |bookings| ==> bookings[i].info.totalAmount.None?
    ensures TotalSpent(bookings) == 0
  {
    if bookings != [] {
      UnpricedBookingsAddNothing(bookings[..|bookings| - 1]);
    }
  }

  /** The name saved with an edit: last, first and middle name joined by spaces, then trimmed. */
  function FullName(lastName: string, firstName: string, middleName: Option<string>): (r: string)
    ensures r == [] || (!IsWhitespace(r[0]) && !IsWhitespace(r[|r| - 1]))
  {
    Trim(lastName + " " + firstName + " " + middleName.GetOr(""))
  }

  /** A part of a name that starts and ends with a visible character. */
  predicate IsCleanName(s: string) {
    s != [] && !IsWhitespace(s[0]) && !IsWhitespace(s[|s| - 1])
  }

  /** Without a middle name the trailing space is dropped: "Last First". */
  lemma FullNameWithoutMiddle(lastName: string, firstName: string, middleName: Option<string>)
    requires IsCleanName(lastName) && IsCleanName(firstName)
    requires middleName.None? || middleName == Some("")
    ensures FullName(lastName, firstName, middleName) == lastName + " " + firstName
  {
    var s := lastName + " " + firstName;
    assert lastName + " " + firstName + " " + middleName.GetOr("") == s + " ";
    assert s[0] == lastName[0] && s[|s| - 1] == firstName[|firstName| - 1];
    TrimStartAppend(s, " ");
    TrimEndAppendWhitespace(s, " ");
  }

  /** With a middle name all three parts are kept, one space apart. */
  lemma FullNameWithMiddle(lastName: string, firstName: string, middleName: string)
    requires IsCleanName(lastName) && IsCleanName(firstName) && IsCleanName(middleName)
    ensures FullName(lastName, firstName, Some(middleName)) == lastName + " " + firstName + " " + middleName
  {
    var s := lastName + " " + firstName + " " + middleName;
    assert s[0] == lastName[0] && s[|s| - 1] == middleName[|middleName| - 1];
    TrimClean(s);
  }

  /** `handleEditSave`: the edited record, with only its full name recomposed from its parts. */
  function SaveEdit(edited: Guest): (g: Guest)
    ensures g.(fullName := edited.fullName) == edited
    ensures g.fullName == FullName(edited.lastName, edited.firstName, edited.middleName)
  {
    edited.(fullName := FullName(edited.lastName, edited.firstName, edited.middleName))
  }

  /** Saving twice gives the same record as saving once. */
  lemma SaveEditIdempotent(edited: Guest)
    ensures SaveEdit(SaveEdit(edited)) == SaveEdit(edited)
  {
  }

  /** Entering a date of birth: the age becomes the current year minus the birth year. */
  function EditDateOfBirth(g: Guest, dateOfBirth: CivilDate, currentYear: int): (r: Guest)
    ensures r.age + dateOfBirth.year == currentYear && r.dateOfBirth == dateOfBirth
    ensures r.(age := g.age, dateOfBirth := g.dateOfBirth) == g
  {
    g.(dateOfBirth := dateOfBirth, age := currentYear - dateOfBirth.year)
  }

  /**
   * The year `new Date(year, 0, 1)` lands in: JavaScript reads a year from 0 to 99 as
   * 1900 to 1999, so the result is never a two-digit year.
   */
  function DateConstructorYear(year: int): (r: int)
    ensures !(0 <= r <= 99)
    ensures r == year || r == year + 1900
    ensures r == year <==> !(0 <= year <= 99)
  {
    if 0 <= year <= 99 then 1900 + year else year
  }

  /**
   * Entering an age: the date of birth becomes the first of January of the current year
   * minus the age, built with `new Date(birthYear, 0, 1)`. `None` stands for the record
   * the source gets when the text is no number (a NaN age and an invalid date).
   */
  function EditAge(g: Guest, text: string, currentYear: int): (r: Option<Guest>)
    ensures r.None? <==> ParseInt(text).None?
    ensures r.Some? ==>
      && r.value.age == ParseInt(text).value
      && r.value.dateOfBirth == CivilDate(DateConstructorYear(currentYear - r.value.age), 1, 1)
      && r.value.(age := g.age, dateOfBirth := g.dateOfBirth) == g
  {
    match ParseInt(text)
    case None => None
    case Some(age) => Some(g.(age := age, dateOfBirth := CivilDate(DateConstructorYear(currentYear - age), 1, 1)))
  }

  /**
   * The two edits agree: an age entered as its own text yields a birth date that gives
   * the same age back, as long as the birth year is not one `new Date` shifts.
   */
  lemma AgeAndBirthDateAgree(g: Guest, age: int, currentYear: int)
    requires !(0 <= currentYear - age <= 99)
    ensures EditAge(g, IntToString(age), currentYear).Some?
    ensures var e := EditAge(g, IntToString(age), currentYear).value;
            EditDateOfBirth(e, e.dateOfBirth, currentYear) == e && e.age == age
  {
    ParseIntOfIntToString(age);
  }

  /** An age whose birth year is two-digit gets a birth date in the 1900s, which gives an age 1900 lower back. */
  lemma AgeWithTwoDigitBirthYear(g: Guest, age: int, currentYear: int)
    requires 0 <= currentYear - age <= 99
    ensures EditAge(g, IntToString(age), currentYear).Some?
    ensures var e := EditAge(g, IntToString(age), currentYear).value;
            e.dateOfBirth.year == 1900 + currentYear - age && EditDateOfBirth(e, e.dateOfBirth, currentYear).age == age - 1900
  {
    ParseIntOfIntToString(age);
  }

  /** Entering a birth date and then its age keeps the birth year, moved to the first of January. */
  lemma BirthDateThenAge(g: Guest, dateOfBirth: CivilDate, currentYear: int)
    requires !(0 <= dateOfBirth.year <= 99)
    ensures var e := EditDateOfBirth(g, dateOfBirth, currentYear);
            EditAge(e, IntToString(e.age), currentYear) == Some(e.(dateOfBirth := CivilDate(dateOfBirth.year, 1, 1)))
  {
    ParseIntOfIntToString(currentYear - dateOfBirth.year);
  }

  /** A typed birth date in the years 0 to 99 comes back from its age 1900 years later. */
  lemma TwoDigitBirthDateThenAge(g: Guest, dateOfBirth: CivilDate, currentYear: int)
    requires 0 <= dateOfBirth.year <= 99
    ensures var e := EditDateOfBirth(g, dateOfBirth, currentYear);
            EditAge(e, IntToString(e.age), currentYear) == Some(e.(dateOfBirth := CivilDate(1900 + dateOfBirth.year, 1, 1)))
  {
    ParseIntOfIntToString(currentYear - dateOfBirth.year);
  }

  /** The history excerpt: the first ten bookings, or all of them when there are fewer. */
  function History(bookings: seq<Booking>): (r: seq<Booking>)
    ensures |r| <= 10 && |r| <= |bookings|
    ensures r == bookings[..|r|]
    ensures |bookings| <= 10 ==> r == bookings
    ensures |bookings| > 10 ==> |r| == 10
  {
    if |bookings| <= 10 then bookings else bookings[..10]
  }
}
