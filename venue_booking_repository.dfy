/** repository/VenueBookingRepository.kt: the booking queries, as filters over
    the stored bookings (in store order). */
module VenueBookingRepository {
  import opened Collections
  import opened Model
  import DateTimeUtil

  /** `findByVenueId` */
  function FindByVenueId(bookings: seq<Booking>, venueId: int): (r: seq<Booking>)
    ensures forall b :: b in r <==> b in bookings && b.venueId == venueId
  {
    Filter(bookings, AtVenue(venueId))
  }

  function AtVenue(venueId: int): Booking -> bool {
    (b: Booking) => b.venueId == venueId
  }

  /** `findByVenueIdAndStartTimeGreaterThanEqualAndEndTimeLessThanEqual`: the
      venue's bookings lying entirely inside [startTime, endTime]. */
  function FindByVenueIdAndStartTimeGreaterThanEqualAndEndTimeLessThanEqual(
    bookings: seq<Booking>, venueId: int, startTime: Time, endTime: Time): (r: seq<Booking>)
    ensures forall b :: b in r <==>
      b in bookings && b.venueId == venueId && b.startTime >= startTime && b.endTime <= endTime
  {
    Filter(bookings, (b: Booking) =>
      b.venueId == venueId && b.startTime >= startTime && b.endTime <= endTime)
  }

  /** `findByEventId` */
  function FindByEventId(bookings: seq<Booking>, eventId: int): (r: seq<Booking>)
    ensures forall b :: b in r <==> b in bookings && b.eventId == eventId
  {
    Filter(bookings, ForEvent(eventId))
  }

  function ForEvent(eventId: int): Booking -> bool {
    (b: Booking) => b.eventId == eventId
  }

  /** The condition of the `findConflictingBookings` query: the closed
      intervals [b.startTime, b.endTime] and [startTime, endTime] meet. */
  predicate ConflictsWith(b: Booking, venueId: int, startTime: Time, endTime: Time) {
    b.venueId == venueId && b.startTime <= endTime && b.endTime >= startTime
  }

  /** `findConflictingBookings` */
  function FindConflictingBookings(bookings: seq<Booking>, venueId: int, startTime: Time, endTime: Time): (r: seq<Booking>)
    ensures forall b :: b in r <==>
      b in bookings && b.venueId == venueId && b.startTime <= endTime && b.endTime >= startTime
  {
    Filter(bookings, ConflictingWith(venueId, startTime, endTime))
  }

  function ConflictingWith(venueId: int, startTime: Time, endTime: Time): Booking -> bool {
    (b: Booking) => ConflictsWith(b, venueId, startTime, endTime)
  }

  /** Every conflicting booking is one of the venue's bookings, in the same order. */
  lemma ConflictingAreVenueBookings(bookings: seq<Booking>, venueId: int, startTime: Time, endTime: Time)
    ensures IsSubsequence(FindConflictingBookings(bookings, venueId, startTime, endTime),
                          FindByVenueId(bookings, venueId))
  {
    FilterMonotone(bookings, ConflictingWith(venueId, startTime, endTime), AtVenue(venueId));
  }

  /** A well-formed booking inside the window is among the conflicts of the window. */
  lemma ContainedBookingConflicts(bookings: seq<Booking>, b: Booking, venueId: int, startTime: Time, endTime: Time)
    requires b in FindByVenueIdAndStartTimeGreaterThanEqualAndEndTimeLessThanEqual(bookings, venueId, startTime, endTime)
    requires b.startTime <= b.endTime
    ensures b in FindConflictingBookings(bookings, venueId, startTime, endTime)
  {
  }

  /** The conflict query is at least as strict as `isOverlapping`: a booking
      whose half-open interval overlaps the window's is reported. */
  lemma OverlapImpliesConflict(b: Booking, venueId: int, startTime: Time, endTime: Time)
    requires b.venueId == venueId
    requires DateTimeUtil.IsOverlapping(b.startTime, b.endTime, startTime, endTime)
    ensures ConflictsWith(b, venueId, startTime, endTime)
  {
  }

  /** For well-formed intervals the two notions differ exactly on intervals
      that touch: a booking ending when the window starts, or starting when
      it ends, is a conflict of the query but does not overlap. */
  lemma ConflictWithoutOverlapIffTouching(b: Booking, venueId: int, startTime: Time, endTime: Time)
    requires b.venueId == venueId
    requires b.startTime < b.endTime && startTime < endTime
    ensures (ConflictsWith(b, venueId, startTime, endTime) &&
             !DateTimeUtil.IsOverlapping(b.startTime, b.endTime, startTime, endTime))
        <==> (b.endTime == startTime || b.startTime == endTime)
  {
  }

  /** A booking that ends before it starts conflicts only with a window
      covering [b.endTime, b.startTime]; in particular not with its own. */
  lemma InvertedBookingConflicts(b: Booking, venueId: int, startTime: Time, endTime: Time)
    requires b.venueId == venueId && b.endTime < b.startTime
    ensures ConflictsWith(b, venueId, startTime, endTime) <==> startTime <= b.endTime && b.startTime <= endTime
    ensures !ConflictsWith(b, venueId, b.startTime, b.endTime)
  {
  }

  /** A concrete case: a booking for 09:00-10:00 blocks a 10:00-11:00 window
      although the two intervals do not overlap. */
  lemma BackToBackBookingConflicts(b: Booking)
    requires b.venueId == 1 && b.startTime == 9 * 3600 && b.endTime == 10 * 3600
    ensures FindConflictingBookings([b], 1, 10 * 3600, 11 * 3600) == [b]
    ensures !DateTimeUtil.IsOverlapping(b.startTime, b.endTime, 10 * 3600, 11 * 3600)
  {
    assert b in FindConflictingBookings([b], 1, 10 * 3600, 11 * 3600);
  }
}
