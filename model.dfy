/** The entities of the venue catalogue and the requests and responses of the
    two services (model/Venue.kt, model/VenueBooking.kt, model/VenueAmenity.kt
    and the dto/ records). Timestamps are whole seconds on one time line;
    identities and counts are unbounded integers. */
module Model {
  import opened Collections

  /** A `LocalDateTime`, as seconds since an arbitrary origin. */
  type Time = int

  /** The venue type enumeration, stored by its constant's name
      (`@Enumerated(EnumType.STRING)`); its constants are not part of this
      model, only their equality matters. */
  datatype VenueType = VenueType(name: string)

  datatype Amenity = Amenity(
    id: int,
    name: string,
    description: Option<string>)

  /** A venue record. The entity's `bookings` collection is not a field here:
      a venue's bookings are the store's bookings whose `venueId` is its id. */
  datatype Venue = Venue(
    id: int,
    name: string,
    location: string,
    capacity: int,
    venueType: VenueType,
    description: Option<string>,
    availabilityStatus: bool,
    amenities: set<Amenity>,
    createdAt: Time,
    updatedAt: Time,
    imageUrl: Option<string>)

  /** A booking; the venue it belongs to is referenced by id. */
  datatype Booking = Booking(
    id: int,
    venueId: int,
    eventId: int,
    eventName: string,
    startTime: Time,
    endTime: Time,
    attendeeCount: int,
    bookingNotes: Option<string>,
    createdAt: Time,
    updatedAt: Time)

  datatype AllocationRequest = AllocationRequest(
    eventId: int,
    eventName: string,
    startTime: Time,
    endTime: Time,
    attendeeCount: int,
    requiredAmenities: Option<seq<string>>,
    preferredVenueType: Option<VenueType>,
    preferredLocation: Option<string>,
    notes: Option<string>)

  /** The human-readable messages of an allocation response. */
  datatype AllocationMessage =
    | NoVenuesWithSufficientCapacity(attendeeCount: int)
    | AllSuitableVenuesBooked
    | NoSuitableVenuesAfterFilters
    | VenueAllocatedSuccessfully

  datatype AllocationResponse = AllocationResponse(
    success: bool,
    venueId: Option<int>,
    venueName: Option<string>,
    message: AllocationMessage)

  datatype VenueCreateRequest = VenueCreateRequest(
    name: string,
    location: string,
    capacity: int,
    venueType: VenueType,
    description: Option<string>,
    amenities: seq<string>)

  datatype VenueUpdateRequest = VenueUpdateRequest(
    name: Option<string>,
    location: Option<string>,
    capacity: Option<int>,
    venueType: Option<VenueType>,
    description: Option<string>,
    availabilityStatus: Option<bool>,
    amenities: Option<seq<string>>,
    imgUrl: string)

  datatype VenueAvailabilityRequest = VenueAvailabilityRequest(
    startTime: Time,
    endTime: Time,
    minCapacity: Option<int>,
    venueType: Option<VenueType>,
    requiredAmenities: Option<seq<string>>,
    location: Option<string>)

  /** A venue's schedule: its id and name and the bookings in a window. */
  datatype VenueSchedule = VenueSchedule(
    venueId: int,
    venueName: string,
    bookings: seq<Booking>)

  /** The outcome of a venue service call that looks a venue up by id: the
      value, or the `ResourceNotFoundException` naming the missing id. */
  datatype Lookup<T> = Found(value: T) | NotFound(id: int)
}
