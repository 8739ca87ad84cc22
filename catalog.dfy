/** The catalogue the services work on: the venue, booking and amenity tables
    behind the three JPA repositories, with the generic repository operations
    the services call (`findById`, `existsById`, `save`, `deleteAll`,
    `deleteById`, `findByNameIgnoreCase`). Identities are generated
    (`GenerationType.IDENTITY`), one counter per table. */
module Catalog {
  import opened Collections
  import opened Model
  import Text

  /** Entities with the same id are the same entity. */
  predicate VenueIdsIdentify(venues: seq<Venue>) {
    forall v, w :: v in venues && w in venues && v.id == w.id ==> v == w
  }

  predicate BookingIdsIdentify(bookings: seq<Booking>) {
    forall b, c :: b in bookings && c in bookings && b.id == c.id ==> b == c
  }

  /** No two stored amenities have names that are equal ignoring case. */
  predicate AmenityNamesIdentify(amenities: seq<Amenity>) {
    forall a, c :: a in amenities && c in amenities && Text.EqualsIgnoreCase(a.name, c.name) ==> a == c
  }

  function VenueIds(venues: seq<Venue>): set<int> {
    set v | v in venues :: v.id
  }

  function BookingIds(bookings: seq<Booking>): set<int> {
    set b | b in bookings :: b.id
  }

  /** `venueRepository.findById(id)`: the first stored venue with that id. */
  function FindVenueById(venues: seq<Venue>, id: int): (r: Option<Venue>)
    ensures r.None? <==> id !in VenueIds(venues)
    ensures r.Some? ==> r.value in venues && r.value.id == id
    decreases |venues|
  {
    if venues == [] then None
    else if venues[0].id == id then Some(venues[0])
    else
      assert forall v :: v in venues ==> v == venues[0] || v in venues[1..];
      FindVenueById(venues[1..], id)
  }

  /** `venueAmenityRepository.findByNameIgnoreCase(name)` */
  function FindAmenityByNameIgnoreCase(amenities: seq<Amenity>, name: string): (r: Option<Amenity>)
    ensures r.None? <==> forall a :: a in amenities ==> !Text.EqualsIgnoreCase(a.name, name)
    ensures r.Some? ==> r.value in amenities && Text.EqualsIgnoreCase(r.value.name, name)
    decreases |amenities|
  {
    if amenities == [] then None
    else if Text.EqualsIgnoreCase(amenities[0].name, name) then Some(amenities[0])
    else
      assert forall a :: a in amenities ==> a == amenities[0] || a in amenities[1..];
      FindAmenityByNameIgnoreCase(amenities[1..], name)
  }

  /** With names unique ignoring case, the lookup finds the one stored
      amenity that matches. */
  lemma FindAmenityFindsTheMatch(amenities: seq<Amenity>, name: string, a: Amenity)
    requires AmenityNamesIdentify(amenities)
    requires a in amenities && Text.EqualsIgnoreCase(a.name, name)
    ensures FindAmenityByNameIgnoreCase(amenities, name) == Some(a)
  {
    var found := FindAmenityByNameIgnoreCase(amenities, name);
    Text.EqualsIgnoreCaseIsEquivalence(found.value.name, name, a.name);
    Text.EqualsIgnoreCaseIsEquivalence(a.name, name, a.name);
  }

  /** The stored venues with the one whose id is `v.id` replaced by `v`. */
  function ReplaceVenue(venues: seq<Venue>, v: Venue): (r: seq<Venue>)
    ensures |r| == |venues|
    ensures forall i :: 0 <= i < |r| ==> r[i] == if venues[i].id == v.id then v else venues[i]
  {
    seq(|venues|, i requires 0 <= i < |venues| => if venues[i].id == v.id then v else venues[i])
  }

  /** After a replacement the id finds the new venue, and every venue with
      another id is still stored. */
  lemma ReplaceVenueThenFind(venues: seq<Venue>, v: Venue)
    requires VenueIdsIdentify(venues) && v.id in VenueIds(venues)
    ensures FindVenueById(ReplaceVenue(venues, v), v.id) == Some(v)
    ensures forall w :: w in venues && w.id != v.id ==> w in ReplaceVenue(venues, v)
    ensures forall w :: w in ReplaceVenue(venues, v) ==> w == v || (w in venues && w.id != v.id)
  {
    var r := ReplaceVenue(venues, v);
    var previous :| previous in venues && previous.id == v.id;
    var i :| 0 <= i < |venues| && venues[i] == previous;
    assert r[i] == v;
    forall w | w in venues && w.id != v.id ensures w in r {
      var j :| 0 <= j < |venues| && venues[j] == w;
      assert r[j] == w;
    }
    forall w | w in r ensures w == v || (w in venues && w.id != v.id) {
      var j :| 0 <= j < |r| && r[j] == w;
    }
    var found := FindVenueById(r, v.id);
    assert found.value == v;
  }

  function NotAtVenue(venueId: int): Booking -> bool {
    (b: Booking) => b.venueId != venueId
  }

  function NotWithId(id: int): Venue -> bool {
    (v: Venue) => v.id != id
  }

  function NotAmong(ids: set<int>): Booking -> bool {
    (b: Booking) => b.id !in ids
  }

  class Store {
    var venues: seq<Venue>
    var bookings: seq<Booking>
    var amenities: seq<Amenity>
    var nextVenueId: int
    var nextBookingId: int
    var nextAmenityId: int

    /** The table constraints: generated ids identify rows and are below the
        next id to hand out, amenity names are unique ignoring case, every
        booking's venue exists, and every venue's amenities are stored. */
    ghost predicate Valid()
      reads this
    {
      VenueIdsIdentify(venues) && BookingIdsIdentify(bookings) && AmenityNamesIdentify(amenities) &&
      0 < nextVenueId && 0 < nextBookingId && 0 < nextAmenityId &&
      (forall v :: v in venues ==> 0 < v.id < nextVenueId) &&
      (forall b :: b in bookings ==> 0 < b.id < nextBookingId) &&
      (forall a :: a in amenities ==> 0 < a.id < nextAmenityId) &&
      (forall b :: b in bookings ==> b.venueId in VenueIds(venues)) &&
      (forall v, a :: v in venues && a in v.amenities ==> a in amenities)
    }

    constructor ()
      ensures Valid()
      ensures venues == [] && bookings == [] && amenities == []
    {
      venues, bookings, amenities := [], [], [];
      nextVenueId, nextBookingId, nextAmenityId := 1, 1, 1;
    }

    /** `venueBookingRepository.save` of a new booking: it gets the next id. */
    method SaveBooking(b: Booking) returns (saved: Booking)
      requires Valid()
      requires b.venueId in VenueIds(venues)
      modifies this
      ensures Valid()
      ensures saved == b.(id := old(nextBookingId))
      ensures bookings == old(bookings) + [saved]
      ensures venues == old(venues) && amenities == old(amenities)
      ensures nextBookingId == old(nextBookingId) + 1
      ensures nextVenueId == old(nextVenueId) && nextAmenityId == old(nextAmenityId)
    {
      saved := b.(id := nextBookingId);
      bookings := bookings + [saved];
      nextBookingId := nextBookingId + 1;
    }

    /** `venueBookingRepository.deleteAll(toDelete)`: removes the stored
        bookings with the ids of `toDelete`. */
    method DeleteAllBookings(toDelete: seq<Booking>)
      requires Valid()
      modifies this
      ensures Valid()
      ensures bookings == Filter(old(bookings), NotAmong(BookingIds(toDelete)))
      ensures venues == old(venues) && amenities == old(amenities)
      ensures nextVenueId == old(nextVenueId) && nextBookingId == old(nextBookingId)
      ensures nextAmenityId == old(nextAmenityId)
    {
      bookings := Filter(bookings, NotAmong(BookingIds(toDelete)));
    }

    /** `venueAmenityRepository.save` of a new amenity named `name`. */
    method SaveAmenity(name: string) returns (saved: Amenity)
      requires Valid()
      requires forall a :: a in amenities ==> !Text.EqualsIgnoreCase(a.name, name)
      modifies this
      ensures Valid()
      ensures saved == Amenity(old(nextAmenityId), name, None)
      ensures amenities == old(amenities) + [saved]
      ensures venues == old(venues) && bookings == old(bookings)
      ensures nextVenueId == old(nextVenueId) && nextBookingId == old(nextBookingId)
      ensures nextAmenityId == old(nextAmenityId) + 1
    {
      saved := Amenity(nextAmenityId, name, None);
      Text.EqualsIgnoreCaseIsEquivalence(name, name, name);
      forall a, c | a in amenities + [saved] && c in amenities + [saved] && Text.EqualsIgnoreCase(a.name, c.name)
        ensures a == c
      {
        Text.EqualsIgnoreCaseIsEquivalence(a.name, c.name, name);
        Text.EqualsIgnoreCaseIsEquivalence(c.name, a.name, name);
      }
      amenities := amenities + [saved];
      nextAmenityId := nextAmenityId + 1;
    }

    /** `venueRepository.save` of a new venue: it gets the next id. */
    method SaveNewVenue(v: Venue) returns (saved: Venue)
      requires Valid()
      requires forall a :: a in v.amenities ==> a in amenities
      modifies this
      ensures Valid()
      ensures saved == v.(id := old(nextVenueId))
      ensures venues == old(venues) + [saved]
      ensures bookings == old(bookings) && amenities == old(amenities)
      ensures nextVenueId == old(nextVenueId) + 1
      ensures nextBookingId == old(nextBookingId) && nextAmenityId == old(nextAmenityId)
    {
      saved := v.(id := nextVenueId);
      venues := venues + [saved];
      nextVenueId := nextVenueId + 1;
      assert VenueIds(old(venues)) <= VenueIds(venues);
    }

    /** `venueRepository.save` of a venue that is already stored. */
    method SaveExistingVenue(v: Venue)
      requires Valid()
      requires v.id in VenueIds(venues)
      requires forall a :: a in v.amenities ==> a in amenities
      modifies this
      ensures Valid()
      ensures venues == ReplaceVenue(old(venues), v)
      ensures bookings == old(bookings) && amenities == old(amenities)
      ensures nextVenueId == old(nextVenueId) && nextBookingId == old(nextBookingId)
      ensures nextAmenityId == old(nextAmenityId)
    {
      var replaced := ReplaceVenue(venues, v);
      forall w | w in replaced ensures w == v || (w in venues && w.id != v.id) {
        var i :| 0 <= i < |replaced| && replaced[i] == w;
      }
      assert VenueIds(replaced) == VenueIds(venues) by {
        forall id | id in VenueIds(venues) ensures id in VenueIds(replaced) {
          var w :| w in venues && w.id == id;
          var i :| 0 <= i < |venues| && venues[i] == w;
          assert replaced[i].id == id;
        }
      }
      venues := replaced;
    }

    /** `venueRepository.deleteById(id)`. The venue's bookings go with it:
        the entity cascades removal to its `bookings` collection. */
    method DeleteVenueById(id: int)
      requires Valid()
      modifies this
      ensures Valid()
      ensures venues == Filter(old(venues), NotWithId(id))
      ensures bookings == Filter(old(bookings), NotAtVenue(id))
      ensures amenities == old(amenities)
      ensures nextVenueId == old(nextVenueId) && nextBookingId == old(nextBookingId)
      ensures nextAmenityId == old(nextAmenityId)
    {
      var keptVenues := Filter(venues, NotWithId(id));
      var keptBookings := Filter(bookings, NotAtVenue(id));
      forall b | b in keptBookings ensures b.venueId in VenueIds(keptVenues) {
        var v :| v in venues && v.id == b.venueId;
        assert v in keptVenues;
      }
      venues, bookings := keptVenues, keptBookings;
    }
  }
}
