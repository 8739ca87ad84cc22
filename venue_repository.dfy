/** repository/VenueRepository.kt: the venue queries, as filters over the
    stored venues (in store order). */
module VenueRepository {
  import opened Collections
  import opened Model
  import Text
  import VenueBookingRepository

  function IsAvailableWithCapacity(capacity: int): Venue -> bool {
    (v: Venue) => v.capacity >= capacity && v.availabilityStatus
  }

  /** `findByCapacityGreaterThanEqualAndAvailabilityStatusTrue` */
  function FindByCapacityGreaterThanEqualAndAvailabilityStatusTrue(venues: seq<Venue>, capacity: int): (r: seq<Venue>)
    ensures forall v :: v in r <==> v in venues && v.capacity >= capacity && v.availabilityStatus
  {
    Filter(venues, IsAvailableWithCapacity(capacity))
  }

  function IsAvailableOfType(venueType: VenueType): Venue -> bool {
    (v: Venue) => v.venueType == venueType && v.availabilityStatus
  }

  /** `findByTypeAndAvailabilityStatusTrue` */
  function FindByTypeAndAvailabilityStatusTrue(venues: seq<Venue>, venueType: VenueType): (r: seq<Venue>)
    ensures forall v :: v in r <==> v in venues && v.venueType == venueType && v.availabilityStatus
  {
    Filter(venues, IsAvailableOfType(venueType))
  }

  /** `findByLocationContainingIgnoreCaseAndAvailabilityStatusTrue` */
  function FindByLocationContainingIgnoreCaseAndAvailabilityStatusTrue(venues: seq<Venue>, location: string): (r: seq<Venue>)
    ensures forall v :: v in r <==>
      v in venues && v.availabilityStatus &&
      exists i :: Text.RegionMatchesIgnoreCase(v.location, i, location)
  {
    Filter(venues, (v: Venue) => Text.ContainsIgnoreCase(v.location, location) && v.availabilityStatus)
  }

  /** `findAvailableVenuesByCapacityAndType` */
  function FindAvailableVenuesByCapacityAndType(venues: seq<Venue>, capacity: int, venueType: VenueType): (r: seq<Venue>)
    ensures forall v :: v in r <==> v in venues && v.capacity >= capacity && v.availabilityStatus && v.venueType == venueType
  {
    Filter(venues, (v: Venue) => v.capacity >= capacity && v.availabilityStatus && v.venueType == venueType)
  }

  /** The capacity-and-type query is the intersection of the capacity query
      and the type query, and keeps store order. */
  lemma CapacityAndTypeIsIntersection(venues: seq<Venue>, capacity: int, venueType: VenueType)
    ensures forall v :: v in FindAvailableVenuesByCapacityAndType(venues, capacity, venueType) <==>
      v in FindByCapacityGreaterThanEqualAndAvailabilityStatusTrue(venues, capacity) &&
      v in FindByTypeAndAvailabilityStatusTrue(venues, venueType)
    ensures IsSubsequence(FindAvailableVenuesByCapacityAndType(venues, capacity, venueType),
                          FindByCapacityGreaterThanEqualAndAvailabilityStatusTrue(venues, capacity))
  {
    FilterMonotone(venues,
      (v: Venue) => v.capacity >= capacity && v.availabilityStatus && v.venueType == venueType,
      IsAvailableWithCapacity(capacity));
  }

  /** The distinct names of the venue's amenities that occur in `names`
      (`a.name IN :amenities`, compared exactly). */
  function MatchedAmenityNames(v: Venue, names: seq<string>): set<string> {
    set a | a in v.amenities && a.name in names :: a.name
  }

  /** `findByAmenitiesIn`: the join keeps only venues with at least one listed
      amenity, and the group's count of distinct matched names must equal
      `amenityCount`. */
  function FindByAmenitiesIn(venues: seq<Venue>, names: seq<string>, amenityCount: int): (r: seq<Venue>)
    ensures forall v :: v in r <==>
      v in venues && v.availabilityStatus &&
      MatchedAmenityNames(v, names) != {} && |MatchedAmenityNames(v, names)| == amenityCount
  {
    Filter(venues, (v: Venue) =>
      v.availabilityStatus && MatchedAmenityNames(v, names) != {} &&
      |MatchedAmenityNames(v, names)| == amenityCount)
  }

  /** Asking for zero matched names finds nothing, because of the inner join. */
  lemma AmenitiesInZeroCountFindsNothing(venues: seq<Venue>, names: seq<string>, amenityCount: int)
    requires amenityCount <= 0
    ensures FindByAmenitiesIn(venues, names, amenityCount) == []
  {
  }

  /** With distinct names and their number as the count, the query finds the
      available venues that have an amenity of every listed name. */
  lemma AmenitiesInFindsVenuesWithAllNames(venues: seq<Venue>, names: seq<string>, v: Venue)
    requires NoDuplicates(names) && |names| > 0
    ensures v in FindByAmenitiesIn(venues, names, |names|) <==>
      v in venues && v.availabilityStatus &&
      forall n :: n in names ==> exists a :: a in v.amenities && a.name == n
  {
    var matched := MatchedAmenityNames(v, names);
    var listed := Elements(names);
    assert matched <= listed;
    DistinctElementsCount(names);
    SubsetCardinality(matched, listed);
    if forall n :: n in names ==> exists a :: a in v.amenities && a.name == n {
      forall n | n in listed ensures n in matched {
        var a :| a in v.amenities && a.name == n;
      }
      assert matched == listed;
      assert names[0] in matched;
      assert matched != {} && |matched| == |names|;
      if v in venues && v.availabilityStatus {
        assert v in FindByAmenitiesIn(venues, names, |names|);
      }
    }
    if v in FindByAmenitiesIn(venues, names, |names|) {
      assert |matched| == |names| == |listed|;
      assert matched == listed;
      forall n | n in names ensures exists a :: a in v.amenities && a.name == n {
        assert n in listed;
        assert n in matched;
        var a :| a in v.amenities && a.name in names && a.name == n;
      }
    }
  }

  function IsAvailableAndFree(bookings: seq<Booking>, startTime: Time, endTime: Time, minCapacity: int): Venue -> bool {
    (v: Venue) =>
      v.capacity >= minCapacity && v.availabilityStatus &&
      VenueBookingRepository.FindConflictingBookings(bookings, v.id, startTime, endTime) == []
  }

  /** `findAvailableVenuesByTimeAndCapacity`: the available venues with enough
      capacity and no booking whose closed interval meets [startTime, endTime]. */
  function FindAvailableVenuesByTimeAndCapacity(
    venues: seq<Venue>, bookings: seq<Booking>, startTime: Time, endTime: Time, minCapacity: int): (r: seq<Venue>)
    ensures forall v :: v in r <==>
      v in venues && v.capacity >= minCapacity && v.availabilityStatus &&
      forall b :: b in bookings && b.venueId == v.id ==> !(b.startTime <= endTime && b.endTime >= startTime)
  {
    var q := IsAvailableAndFree(bookings, startTime, endTime, minCapacity);
    assert forall v :: q(v) <==>
      v.capacity >= minCapacity && v.availabilityStatus &&
      forall b :: b in bookings && b.venueId == v.id ==> !(b.startTime <= endTime && b.endTime >= startTime)
    by {
      forall v ensures q(v) <==>
        v.capacity >= minCapacity && v.availabilityStatus &&
        forall b :: b in bookings && b.venueId == v.id ==> !(b.startTime <= endTime && b.endTime >= startTime)
      {
        var c := VenueBookingRepository.FindConflictingBookings(bookings, v.id, startTime, endTime);
        if c != [] {
          assert c[0] in c;
        }
      }
    }
    Filter(venues, q)
  }

  /** Every venue free in the window is one the capacity query returns. */
  lemma TimeAndCapacityWithinCapacityQuery(
    venues: seq<Venue>, bookings: seq<Booking>, startTime: Time, endTime: Time, minCapacity: int)
    ensures IsSubsequence(FindAvailableVenuesByTimeAndCapacity(venues, bookings, startTime, endTime, minCapacity),
                          FindByCapacityGreaterThanEqualAndAvailabilityStatusTrue(venues, minCapacity))
  {
    FilterMonotone(venues, IsAvailableAndFree(bookings, startTime, endTime, minCapacity),
                   IsAvailableWithCapacity(minCapacity));
  }
}
