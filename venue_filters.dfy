/** The venue tests both services filter with: type equality, an
    ignore-case location substring, and required amenities matched by
    lower-cased name. */
module VenueFilters {
  import opened Model
  import Text

  function HasType(venueType: VenueType): Venue -> bool {
    (v: Venue) => v.venueType == venueType
  }

  /** `it.location.contains(location, ignoreCase = true)` */
  function HasLocation(location: string): Venue -> bool {
    (v: Venue) => Text.ContainsIgnoreCase(v.location, location)
  }

  /** `venue.amenities.map { it.name.lowercase() }` */
  function LowercaseAmenityNames(v: Venue): set<string> {
    set a | a in v.amenities :: Text.Lowercase(a.name)
  }

  /** `venueAmenityNames.contains(amenity.lowercase())`: some amenity of the
      venue has the asked name ignoring case. */
  predicate HasAmenity(v: Venue, name: string)
    ensures HasAmenity(v, name) <==> exists a :: a in v.amenities && Text.EqualsIgnoreCase(a.name, name)
  {
    LowercaseMembership(v, name);
    Text.Lowercase(name) in LowercaseAmenityNames(v)
  }

  /** `amenities.all { ... }`: the lower-cased asked names are among the
      venue's lower-cased amenity names, so an empty list asks for nothing. */
  predicate HasAllAmenities(v: Venue, names: seq<string>)
    ensures HasAllAmenities(v, names) <==> (set n | n in names :: Text.Lowercase(n)) <= LowercaseAmenityNames(v)
    ensures names == [] ==> HasAllAmenities(v, names)
  {
    forall n :: n in names ==> HasAmenity(v, n)
  }

  function HasAmenities(names: seq<string>): Venue -> bool {
    (v: Venue) => HasAllAmenities(v, names)
  }

  /** The lower-cased membership test is matching some amenity's name
      ignoring case. */
  lemma LowercaseMembership(v: Venue, name: string)
    ensures Text.Lowercase(name) in LowercaseAmenityNames(v) <==>
      exists a :: a in v.amenities && Text.EqualsIgnoreCase(a.name, name)
  {
    if Text.Lowercase(name) in LowercaseAmenityNames(v) {
      var a :| a in v.amenities && Text.Lowercase(a.name) == Text.Lowercase(name);
      assert Text.EqualsIgnoreCase(a.name, name);
    }
  }
}
