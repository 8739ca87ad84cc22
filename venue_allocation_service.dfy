/** service/VenueAllocationServiceImpl.kt: choosing a venue for one event and
    booking it, checking a venue's availability, and cancelling an event's
    bookings.

    The pure part is stated as functions: the hard filters (capacity and
    availability, then no conflicting booking), the soft filters (type,
    location, amenities; each ignored when it would leave nothing), the score
    and the stable descending ranking. `Decide` is the whole choice; the
    method `AllocateVenue` performs it step by step on the store, and its
    postcondition ties the new store and the response to `Decide`. */
module VenueAllocationService {
  import opened Collections
  import opened Model
  import Text
  import VenueBookingRepository
  import VenueRepository
  import Catalog
  import opened VenueFilters
  import DateTimeUtil

  /** `checkVenueAvailability`: no booking of the venue meets the closed
      interval [startTime, endTime]. */
  function CheckVenueAvailability(bookings: seq<Booking>, venueId: int, startTime: Time, endTime: Time): (r: bool)
    ensures r <==> forall b :: b in bookings && b.venueId == venueId ==>
      b.endTime < startTime || endTime < b.startTime
  {
    var conflicts := VenueBookingRepository.FindConflictingBookings(bookings, venueId, startTime, endTime);
    assert conflicts != [] ==> conflicts[0] in conflicts;
    conflicts == []
  }

  // ---------------------------------------------------------------------
  // Hard filters (steps 1 and 2)

  /** Step 1: the available venues large enough for the event, in their order. */
  function CapableVenues(venues: seq<Venue>, request: AllocationRequest): (r: seq<Venue>)
    ensures forall v :: v in r <==> v in venues && v.capacity >= request.attendeeCount && v.availabilityStatus
    ensures IsSubsequence(r, venues)
  {
    VenueRepository.FindByCapacityGreaterThanEqualAndAvailabilityStatusTrue(venues, request.attendeeCount)
  }

  function IsFreeDuring(bookings: seq<Booking>, startTime: Time, endTime: Time): Venue -> bool {
    (v: Venue) => CheckVenueAvailability(bookings, v.id, startTime, endTime)
  }

  /** Step 2: the candidates with no conflicting booking in the window, in their order. */
  function FreeVenues(candidates: seq<Venue>, bookings: seq<Booking>, request: AllocationRequest): (r: seq<Venue>)
    ensures forall v :: v in r <==>
      v in candidates && CheckVenueAvailability(bookings, v.id, request.startTime, request.endTime)
    ensures IsSubsequence(r, candidates)
  {
    Filter(candidates, IsFreeDuring(bookings, request.startTime, request.endTime))
  }

  /** The two hard filters together select exactly what the repository's
      time-and-capacity query selects, in the same order. */
  lemma HardFiltersAgreeWithRepositoryQuery(venues: seq<Venue>, bookings: seq<Booking>, request: AllocationRequest)
    ensures FreeVenues(CapableVenues(venues, request), bookings, request) ==
      VenueRepository.FindAvailableVenuesByTimeAndCapacity(
        venues, bookings, request.startTime, request.endTime, request.attendeeCount)
  {
    var capable := VenueRepository.IsAvailableWithCapacity(request.attendeeCount);
    var free := IsFreeDuring(bookings, request.startTime, request.endTime);
    var query := VenueRepository.IsAvailableAndFree(bookings, request.startTime, request.endTime, request.attendeeCount);
    forall v | v in venues ensures query(v) == (capable(v) && free(v)) {
      var c := VenueBookingRepository.FindConflictingBookings(bookings, v.id, request.startTime, request.endTime);
      assert free(v) == (c == []);
    }
    FilterFilter(venues, capable, free, query);
  }

  // ---------------------------------------------------------------------
  // Soft filters (steps 3 to 5)

  /** A preference: the candidates that satisfy `p`, unless there are none,
      in which case all candidates. */
  function SoftFilter(candidates: seq<Venue>, p: Venue -> bool): (r: seq<Venue>)
    ensures IsSubsequence(r, candidates)
    ensures candidates != [] ==> r != []
    ensures (exists v :: v in candidates && p(v)) ==>
      forall v :: v in r <==> v in candidates && p(v)
    ensures (forall v :: v in candidates ==> !p(v)) ==> r == candidates
  {
    var kept := Filter(candidates, p);
    SubsequenceReflexive(candidates);
    if kept != [] then kept else candidates
  }

  /** Step 3 */
  function PreferType(candidates: seq<Venue>, preferred: Option<VenueType>): (r: seq<Venue>)
    ensures IsSubsequence(r, candidates) && (candidates != [] ==> r != [])
    ensures preferred.Some? && (exists v :: v in candidates && v.venueType == preferred.value) ==>
      forall v :: v in r <==> v in candidates && v.venueType == preferred.value
    ensures preferred.None? || (forall v :: v in candidates ==> v.venueType != preferred.value) ==> r == candidates
  {
    match preferred
    case None => SubsequenceReflexive(candidates); candidates
    case Some(t) => SoftFilter(candidates, HasType(t))
  }

  /** Step 4 */
  function PreferLocation(candidates: seq<Venue>, preferred: Option<string>): (r: seq<Venue>)
    ensures IsSubsequence(r, candidates) && (candidates != [] ==> r != [])
    ensures preferred.Some? && (exists v :: v in candidates && Text.ContainsIgnoreCase(v.location, preferred.value)) ==>
      forall v :: v in r <==> v in candidates && Text.ContainsIgnoreCase(v.location, preferred.value)
    ensures preferred.None? || (forall v :: v in candidates ==> !Text.ContainsIgnoreCase(v.location, preferred.value)) ==>
      r == candidates
  {
    match preferred
    case None => SubsequenceReflexive(candidates); candidates
    case Some(l) => SoftFilter(candidates, HasLocation(l))
  }

  /** Step 5 (an empty list of amenities is no preference) */
  function PreferAmenities(candidates: seq<Venue>, required: Option<seq<string>>): (r: seq<Venue>)
    ensures IsSubsequence(r, candidates) && (candidates != [] ==> r != [])
    ensures required.Some? && (exists v :: v in candidates && HasAllAmenities(v, required.value)) ==>
      forall v :: v in r <==> v in candidates && HasAllAmenities(v, required.value)
    ensures (required.None? || required.value == [] ||
             forall v :: v in candidates ==> !HasAllAmenities(v, required.value)) ==> r == candidates
  {
    SubsequenceReflexive(candidates);
    match required
    case None => candidates
    case Some(names) => if |names| > 0 then SoftFilter(candidates, HasAmenities(names)) else candidates
  }

  /** The candidates left after the three preferences: a subsequence of the
      conflict-free venues, and never empty when those are not. */
  function FinalCandidates(free: seq<Venue>, request: AllocationRequest): (r: seq<Venue>)
    ensures IsSubsequence(r, free)
    ensures free != [] ==> r != []
  {
    var typed := PreferType(free, request.preferredVenueType);
    var located := PreferLocation(typed, request.preferredLocation);
    var equipped := PreferAmenities(located, request.requiredAmenities);
    SubsequenceTransitive(located, typed, free);
    SubsequenceTransitive(equipped, located, free);
    equipped
  }

  // ---------------------------------------------------------------------
  // Scoring (rankVenues)

  /** The capacity-efficiency part of the score, from the ratio of capacity
      to attendees. With no attendees the double division gives +Infinity,
      NaN (both fail every band) or -Infinity (passes the first band). */
  function CapacityScore(capacity: int, attendeeCount: int): (r: real)
    ensures 20.0 <= r <= 100.0
  {
    if attendeeCount == 0 then
      (if capacity < 0 then 100.0 else 20.0)
    else
      var ratio := capacity as real / attendeeCount as real;
      if ratio <= 1.1 then 100.0
      else if ratio <= 1.25 then 80.0
      else if ratio <= 1.5 then 60.0
      else if ratio <= 2.0 then 40.0
      else 20.0
  }

  /** With no attendees only a negative capacity, whose ratio is -Infinity,
      reaches the top band; any other capacity scores the lowest band. */
  lemma CapacityScoreWithoutAttendees(capacity: int)
    ensures CapacityScore(capacity, 0) == 100.0 <==> capacity < 0
    ensures capacity >= 0 ==> CapacityScore(capacity, 0) == 20.0
  {
  }

  /** For a positive number of attendees the bands are these integer tests. */
  lemma CapacityScoreBands(capacity: int, attendeeCount: int)
    requires attendeeCount > 0
    ensures CapacityScore(capacity, attendeeCount) == 100.0 <==> 10 * capacity <= 11 * attendeeCount
    ensures CapacityScore(capacity, attendeeCount) == 80.0 <==>
      11 * attendeeCount < 10 * capacity && 4 * capacity <= 5 * attendeeCount
    ensures CapacityScore(capacity, attendeeCount) == 60.0 <==>
      5 * attendeeCount < 4 * capacity && 2 * capacity <= 3 * attendeeCount
    ensures CapacityScore(capacity, attendeeCount) == 40.0 <==>
      3 * attendeeCount < 2 * capacity && capacity <= 2 * attendeeCount
    ensures CapacityScore(capacity, attendeeCount) == 20.0 <==> 2 * attendeeCount < capacity
  {
    var a := attendeeCount as real;
    var ratio := capacity as real / a;
    assert ratio * a == capacity as real;
    RatioAtMost(ratio, a, capacity, 11, 10);
    RatioAtMost(ratio, a, capacity, 5, 4);
    RatioAtMost(ratio, a, capacity, 3, 2);
    RatioAtMost(ratio, a, capacity, 2, 1);
  }

  lemma RatioAtMost(ratio: real, a: real, capacity: int, num: int, den: int)
    requires a >= 1.0 && den > 0 && ratio * a == capacity as real
    ensures ratio <= num as real / den as real <==> den * capacity <= num * (a.Floor)
    requires a == a.Floor as real
  {
    var t := num as real / den as real;
    assert t * den as real == num as real;
    if ratio <= t {
      assert ratio * a <= t * a;
      assert (den as real) * (ratio * a) <= (den as real) * (t * a);
    } else {
      assert ratio * a > t * a;
      assert (den as real) * (ratio * a) > (den as real) * (t * a);
    }
  }

  /** A venue with exactly the attendee count scores 100 on capacity, twice
      that 40, three times that 20. */
  lemma CapacityScoreExamples(attendeeCount: int)
    requires attendeeCount > 0
    ensures CapacityScore(attendeeCount, attendeeCount) == 100.0
    ensures CapacityScore(2 * attendeeCount, attendeeCount) == 40.0
    ensures CapacityScore(3 * attendeeCount, attendeeCount) == 20.0
  {
    CapacityScoreBands(attendeeCount, attendeeCount);
    CapacityScoreBands(2 * attendeeCount, attendeeCount);
    CapacityScoreBands(3 * attendeeCount, attendeeCount);
  }

  /** More wasted capacity never scores better. */
  lemma CapacityScoreMonotone(smaller: int, larger: int, attendeeCount: int)
    requires attendeeCount > 0 && smaller <= larger
    ensures CapacityScore(larger, attendeeCount) <= CapacityScore(smaller, attendeeCount)
  {
    CapacityScoreBands(smaller, attendeeCount);
    CapacityScoreBands(larger, attendeeCount);
  }

  /** How many of the required names the venue has, ignoring case. */
  function MatchCount(v: Venue, required: seq<string>): (r: nat)
    ensures r <= |required|
    ensures r == |required| <==> HasAllAmenities(v, required)
    decreases |required|
  {
    if required == [] then 0
    else
      assert forall n :: n in required ==> n == required[0] || n in required[1..];
      (if HasAmenity(v, required[0]) then 1 else 0) + MatchCount(v, required[1..])
  }

  /** The amenity part: 50 times the fraction of required amenities present. */
  function AmenityScore(v: Venue, request: AllocationRequest): (r: real)
    ensures 0.0 <= r <= 50.0
    ensures request.requiredAmenities.Some? && |request.requiredAmenities.value| > 0 ==>
      (r == 50.0 <==> HasAllAmenities(v, request.requiredAmenities.value))
    ensures request.requiredAmenities.None? || request.requiredAmenities.value == [] ==> r == 0.0
  {
    match request.requiredAmenities
    case None => 0.0
    case Some(names) =>
      if |names| > 0 then
        FractionAtMostOne(MatchCount(v, names), |names|);
        (MatchCount(v, names) as real / |names| as real) * 50.0
      else 0.0
  }

  lemma FractionAtMostOne(m: nat, n: nat)
    requires 0 < n && m <= n
    ensures 0.0 <= m as real / n as real <= 1.0
    ensures m as real / n as real == 1.0 <==> m == n
  {
    var q, mr, nr := m as real / n as real, m as real, n as real;
    assert q * nr == mr;
    assert (1.0 - q) * nr == nr - mr;
    NonNegativeFactor(q, nr);
    NonNegativeFactor(1.0 - q, nr);
    if m == n {
      assert (q - 1.0) * nr == 0.0;
      NonNegativeFactor(q - 1.0, nr);
    }
  }

  /** A product with a positive factor is non-negative only if the other
      factor is. */
  lemma NonNegativeFactor(a: real, b: real)
    requires b > 0.0 && a * b >= 0.0
    ensures a >= 0.0
  {
  }

  /** 30 points when the venue's location contains the preferred one ignoring case. */
  function LocationScore(v: Venue, request: AllocationRequest): (r: real)
    ensures 0.0 <= r <= 30.0
    ensures r == 30.0 <==>
      request.preferredLocation.Some? && Text.ContainsIgnoreCase(v.location, request.preferredLocation.value)
  {
    match request.preferredLocation
    case None => 0.0
    case Some(l) => if Text.ContainsIgnoreCase(v.location, l) then 30.0 else 0.0
  }

  /** 40 points when the venue is of the preferred type. */
  function TypeScore(v: Venue, request: AllocationRequest): (r: real)
    ensures 0.0 <= r <= 40.0
    ensures r == 40.0 <==> request.preferredVenueType == Some(v.venueType)
  {
    match request.preferredVenueType
    case None => 0.0
    case Some(t) => if v.venueType == t then 40.0 else 0.0
  }

  /** The score `rankVenues` gives a venue. */
  function Score(v: Venue, request: AllocationRequest): (r: real)
    ensures 20.0 <= r <= 220.0
  {
    CapacityScore(v.capacity, request.attendeeCount) + AmenityScore(v, request) +
    LocationScore(v, request) + TypeScore(v, request)
  }

  // ---------------------------------------------------------------------
  // Ranking: `sortedByDescending { score(it) }`, a stable sort on a key

  /** The key `rankVenues` sorts on. */
  function ScoreOf(request: AllocationRequest): Venue -> real {
    (v: Venue) => Score(v, request)
  }

  predicate SortedDescending(vs: seq<Venue>, key: Venue -> real) {
    forall i, j :: 0 <= i < j < |vs| ==> key(vs[i]) >= key(vs[j])
  }

  /** Inserts `v` before the first venue whose key is not strictly higher. */
  function InsertByKey(v: Venue, ranked: seq<Venue>, key: Venue -> real): (r: seq<Venue>)
    ensures multiset(r) == multiset(ranked) + multiset{v}
    decreases |ranked|
  {
    if ranked == [] || key(ranked[0]) <= key(v) then [v] + ranked
    else
      assert ranked == [ranked[0]] + ranked[1..];
      [ranked[0]] + InsertByKey(v, ranked[1..], key)
  }

  lemma {:induction false} InsertByKeySorted(v: Venue, ranked: seq<Venue>, key: Venue -> real)
    requires SortedDescending(ranked, key)
    ensures SortedDescending(InsertByKey(v, ranked, key), key)
    decreases |ranked|
  {
    if ranked != [] && key(ranked[0]) > key(v) {
      var rest := InsertByKey(v, ranked[1..], key);
      InsertByKeySorted(v, ranked[1..], key);
      var r := [ranked[0]] + rest;
      forall i, j | 0 <= i < j < |r| ensures key(r[i]) >= key(r[j]) {
        if i == 0 {
          assert r[j] in multiset(rest);
          assert r[j] == v || r[j] in multiset(ranked[1..]);
          if r[j] != v {
            var k :| 0 <= k < |ranked[1..]| && ranked[1..][k] == r[j];
            assert ranked[k + 1] == r[j];
          }
        }
      }
    }
  }

  /** A descending insertion sort on `key`. */
  function SortByKeyDescending(venues: seq<Venue>, key: Venue -> real): (r: seq<Venue>)
    ensures SortedDescending(r, key)
    ensures multiset(r) == multiset(venues)
    ensures |r| == |venues|
    decreases |venues|
  {
    if venues == [] then []
    else
      assert venues == [venues[0]] + venues[1..];
      var rest := SortByKeyDescending(venues[1..], key);
      InsertByKeySorted(venues[0], rest, key);
      InsertByKey(venues[0], rest, key)
  }

  /** `rankVenues`: the venues ordered by descending score. */
  function RankVenues(venues: seq<Venue>, request: AllocationRequest): (r: seq<Venue>)
    ensures forall i, j :: 0 <= i < j < |r| ==> Score(r[i], request) >= Score(r[j], request)
    ensures multiset(r) == multiset(venues)
    ensures |r| == |venues|
  {
    var r := SortByKeyDescending(venues, ScoreOf(request));
    assert forall i, j :: 0 <= i < j < |r| ==> ScoreOf(request)(r[i]) >= ScoreOf(request)(r[j]);
    r
  }

  function HasKey(key: Venue -> real, value: real): Venue -> bool {
    (v: Venue) => key(v) == value
  }

  /** The inserted venue goes before the venues that share its key. */
  lemma {:induction false} InsertByKeyKeepsTies(v: Venue, ranked: seq<Venue>, key: Venue -> real, value: real)
    ensures Filter(InsertByKey(v, ranked, key), HasKey(key, value)) ==
      (if key(v) == value then [v] else []) + Filter(ranked, HasKey(key, value))
    decreases |ranked|
  {
    var p := HasKey(key, value);
    if ranked == [] || key(ranked[0]) <= key(v) {
      FilterCons(v, ranked, p);
    } else {
      var first, tail := ranked[0], ranked[1..];
      assert ranked == [first] + tail;
      var inserted := InsertByKey(v, tail, key);
      assert InsertByKey(v, ranked, key) == [first] + inserted;
      InsertByKeyKeepsTies(v, tail, key, value);
      FilterPrependStep(first, inserted, tail, p, if key(v) == value then [v] else []);
    }
  }

  /** Putting `first` before both sides keeps an equation between filtered
      sequences when `first` and the prefix `x` are not both kept. */
  lemma FilterPrependStep(first: Venue, inserted: seq<Venue>, tail: seq<Venue>, p: Venue -> bool, x: seq<Venue>)
    requires Filter(inserted, p) == x + Filter(tail, p)
    requires p(first) ==> x == []
    ensures Filter([first] + inserted, p) == x + Filter([first] + tail, p)
  {
    FilterCons(first, inserted, p);
    FilterCons(first, tail, p);
    if p(first) {
      assert x + ([first] + Filter(tail, p)) == [first] + Filter(tail, p);
    }
  }

  /** The sort is stable: the venues of any one key appear in it in their
      input order. */
  lemma {:induction false} SortByKeyStable(venues: seq<Venue>, key: Venue -> real, value: real)
    ensures Filter(SortByKeyDescending(venues, key), HasKey(key, value)) == Filter(venues, HasKey(key, value))
    decreases |venues|
  {
    if venues != [] {
      SortByKeyStable(venues[1..], key, value);
      InsertByKeyKeepsTies(venues[0], SortByKeyDescending(venues[1..], key), key, value);
    }
  }

  /** The ranking is stable: the venues of any one score appear in it in
      their input order. */
  lemma RankVenuesStable(venues: seq<Venue>, request: AllocationRequest, score: real)
    ensures Filter(RankVenues(venues, request), HasKey(ScoreOf(request), score)) ==
      Filter(venues, HasKey(ScoreOf(request), score))
  {
    SortByKeyStable(venues, ScoreOf(request), score);
  }

  /** The earliest position holding a highest key: an independent statement
      of which venue a stable descending sort puts first. */
  function BestIndex(venues: seq<Venue>, key: Venue -> real): (k: nat)
    requires venues != []
    ensures k < |venues|
    ensures forall j :: 0 <= j < |venues| ==> key(venues[j]) <= key(venues[k])
    ensures forall j :: 0 <= j < k ==> key(venues[j]) < key(venues[k])
    decreases |venues|
  {
    if |venues| == 1 then 0
    else
      var k := BestIndex(venues[1..], key);
      assert forall j :: 1 <= j < |venues| ==> venues[j] == venues[1..][j - 1];
      if key(venues[0]) >= key(venues[1..][k]) then 0 else k + 1
  }

  /** The first venue of the sort is the earliest of the highest-keyed venues. */
  lemma {:induction false} SortedFirstIsBest(venues: seq<Venue>, key: Venue -> real)
    requires venues != []
    ensures SortByKeyDescending(venues, key)[0] == venues[BestIndex(venues, key)]
    decreases |venues|
  {
    if |venues| > 1 {
      SortedFirstIsBest(venues[1..], key);
    }
  }

  /** `rankedVenues.first()` is the earliest of the highest-scoring venues. */
  lemma RankedFirstIsBest(venues: seq<Venue>, request: AllocationRequest)
    requires venues != []
    ensures RankVenues(venues, request)[0] == venues[BestIndex(venues, ScoreOf(request))]
  {
    SortedFirstIsBest(venues, ScoreOf(request));
  }

  // ---------------------------------------------------------------------
  // The decision of allocateVenue

  /** The outcomes of `allocateVenue`. `NoneAfterFilters` stands for the
      answer given when the ranking comes back empty; `Decide` never returns
      it, because every preference keeps a non-empty candidate list. */
  datatype Decision = NoCapacity | AllBooked | NoneAfterFilters | Selected(venue: Venue)

  /** What `allocateVenue` decides, given the venues and the bookings left
      once the event's earlier bookings are gone. */
  function Decide(venues: seq<Venue>, bookings: seq<Booking>, request: AllocationRequest): (r: Decision)
    ensures !r.NoneAfterFilters?
    ensures r.Selected? ==> r.venue in venues
  {
    var capable := CapableVenues(venues, request);
    if capable == [] then NoCapacity
    else
      var free := FreeVenues(capable, bookings, request);
      if free == [] then AllBooked
      else
        var final := FinalCandidates(free, request);
        var ranked := RankVenues(final, request);
        assert ranked[0] in multiset(final);
        SubsequenceMembers(final, free, ranked[0]);
        Selected(ranked[0])
  }

  /** The first failure happens exactly when no available venue is large enough. */
  lemma NoCapacityIff(venues: seq<Venue>, bookings: seq<Booking>, request: AllocationRequest)
    ensures Decide(venues, bookings, request) == NoCapacity <==>
      forall v :: v in venues ==> !(v.capacity >= request.attendeeCount && v.availabilityStatus)
  {
    var capable := CapableVenues(venues, request);
    if capable != [] {
      assert capable[0] in capable;
    }
  }

  /** The second failure happens exactly when there are large-enough
      available venues and every one of them has a conflicting booking. */
  lemma AllBookedIff(venues: seq<Venue>, bookings: seq<Booking>, request: AllocationRequest)
    ensures Decide(venues, bookings, request) == AllBooked <==>
      (exists v :: v in venues && v.capacity >= request.attendeeCount && v.availabilityStatus) &&
      forall v :: v in venues && v.capacity >= request.attendeeCount && v.availabilityStatus ==>
        !CheckVenueAvailability(bookings, v.id, request.startTime, request.endTime)
  {
    var capable := CapableVenues(venues, request);
    var free := FreeVenues(capable, bookings, request);
    if capable != [] {
      assert capable[0] in capable;
    }
    if free != [] {
      assert free[0] in free;
    }
  }

  /** The selected venue is a stored venue that is available, large enough
      and free of conflicting bookings in the requested window. */
  lemma SelectedMeetsHardConstraints(venues: seq<Venue>, bookings: seq<Booking>, request: AllocationRequest)
    requires Decide(venues, bookings, request).Selected?
    ensures var v := Decide(venues, bookings, request).venue;
      v in venues && v.capacity >= request.attendeeCount && v.availabilityStatus &&
      forall b :: b in bookings && b.venueId == v.id ==>
        !(b.startTime <= request.endTime && b.endTime >= request.startTime)
  {
    var free := FreeVenues(CapableVenues(venues, request), bookings, request);
    var final := FinalCandidates(free, request);
    var ranked := RankVenues(final, request);
    assert ranked[0] in multiset(final);
    SubsequenceMembers(final, free, ranked[0]);
  }

  /** The selected venue has the highest score among the final candidates,
      and every earlier candidate scores strictly less. */
  lemma SelectedScoresBest(venues: seq<Venue>, bookings: seq<Booking>, request: AllocationRequest)
    requires Decide(venues, bookings, request).Selected?
    ensures var final := FinalCandidates(FreeVenues(CapableVenues(venues, request), bookings, request), request);
      var v := Decide(venues, bookings, request).venue;
      exists k :: 0 <= k < |final| && final[k] == v &&
        (forall j :: 0 <= j < |final| ==> Score(final[j], request) <= Score(v, request)) &&
        (forall j :: 0 <= j < k ==> Score(final[j], request) < Score(v, request))
  {
    var free := FreeVenues(CapableVenues(venues, request), bookings, request);
    var final := FinalCandidates(free, request);
    assert free != [] && final != [];
    assert Decide(venues, bookings, request).venue == RankVenues(final, request)[0];
    RankedFirstScoresBest(final, request);
  }

  /** The first ranked venue has the highest score, and every earlier
      candidate scores strictly less. */
  lemma RankedFirstScoresBest(final: seq<Venue>, request: AllocationRequest)
    requires final != []
    ensures var v := RankVenues(final, request)[0];
      exists k :: 0 <= k < |final| && final[k] == v &&
        (forall j :: 0 <= j < |final| ==> Score(final[j], request) <= Score(v, request)) &&
        (forall j :: 0 <= j < k ==> Score(final[j], request) < Score(v, request))
  {
    RankedFirstIsBest(final, request);
    var key := ScoreOf(request);
    var k := BestIndex(final, key);
    var v := RankVenues(final, request)[0];
    assert final[k] == v;
    assert forall j :: 0 <= j < |final| ==> key(final[j]) <= key(v);
    assert forall j :: 0 <= j < k ==> key(final[j]) < key(v);
  }

  /** A preferred type is honoured whenever some large-enough, available,
      conflict-free venue has it. */
  lemma PreferredTypeHonoured(venues: seq<Venue>, bookings: seq<Booking>, request: AllocationRequest, w: Venue)
    requires request.preferredVenueType.Some?
    requires w in venues && w.venueType == request.preferredVenueType.value
    requires w.capacity >= request.attendeeCount && w.availabilityStatus
    requires CheckVenueAvailability(bookings, w.id, request.startTime, request.endTime)
    ensures Decide(venues, bookings, request).Selected?
    ensures Decide(venues, bookings, request).venue.venueType == request.preferredVenueType.value
  {
    var free := FreeVenues(CapableVenues(venues, request), bookings, request);
    assert w in free;
    var typed := PreferType(free, request.preferredVenueType);
    var located := PreferLocation(typed, request.preferredLocation);
    var final := PreferAmenities(located, request.requiredAmenities);
    SubsequenceTransitive(final, located, typed);
    var v := RankVenues(final, request)[0];
    assert v in multiset(final);
    SubsequenceMembers(final, typed, v);
  }

  /** Two classrooms of 50 and 30 seats, no bookings and no preferences: for
      28 attendees the 30-seat room wins on capacity efficiency (ratio 1.07
      scores 100, ratio 1.79 scores 40). */
  lemma CapacityEfficiencyScenario(a: Venue, b: Venue, request: AllocationRequest)
    requires a.capacity == 50 && b.capacity == 30 && a.availabilityStatus && b.availabilityStatus
    requires a.venueType == b.venueType
    requires request.attendeeCount == 28
    requires request.preferredVenueType.None? && request.preferredLocation.None? && request.requiredAmenities.None?
    ensures Decide([a, b], [], request) == Selected(b)
  {
    CapacityScoreBands(50, 28);
    CapacityScoreBands(30, 28);
    assert Score(a, request) < Score(b, request);
    var capable := CapableVenues([a, b], request);
    assert capable == [a, b] by {
      FilterKeepsAll([a, b], VenueRepository.IsAvailableWithCapacity(request.attendeeCount));
    }
    assert FreeVenues(capable, [], request) == [a, b] by {
      FilterKeepsAll(capable, IsFreeDuring([], request.startTime, request.endTime));
    }
    assert FinalCandidates([a, b], request) == [a, b];
    RankTwo(a, b, request);
  }

  /** Two venues, the second scoring higher, are ranked second first. */
  lemma RankTwo(a: Venue, b: Venue, request: AllocationRequest)
    requires Score(a, request) < Score(b, request)
    ensures RankVenues([a, b], request) == [b, a]
  {
    var key := ScoreOf(request);
    assert [a, b][1..] == [b];
    assert SortByKeyDescending([b], key) == [b];
    assert SortByKeyDescending([a, b], key) == InsertByKey(a, [b], key);
  }

  /** The same rooms, with the 30-seat room booked 09:00-10:00 by another
      event: a request for 09:30-10:30 gets the 50-seat room, the only one
      left after the time-conflict filter. */
  lemma ConflictExcludesBetterVenueScenario(a: Venue, b: Venue, c: Booking, request: AllocationRequest)
    requires a.id != b.id
    requires a.capacity == 50 && b.capacity == 30 && a.availabilityStatus && b.availabilityStatus
    requires c.venueId == b.id && c.startTime == 9 * 3600 && c.endTime == 10 * 3600
    requires c.eventId != request.eventId
    requires request.attendeeCount == 28
    requires request.startTime == 9 * 3600 + 1800 && request.endTime == 10 * 3600 + 1800
    ensures Decide([a, b], WithoutEvent([c], request.eventId), request) == Selected(a)
  {
    var bookings := WithoutEvent([c], request.eventId);
    assert bookings == [c] by {
      FilterKeepsAll([c], NotForEvent(request.eventId));
    }
    var capable := CapableVenues([a, b], request);
    assert capable == [a, b] by {
      FilterKeepsAll([a, b], VenueRepository.IsAvailableWithCapacity(request.attendeeCount));
    }
    assert !CheckVenueAvailability(bookings, b.id, request.startTime, request.endTime);
    assert CheckVenueAvailability(bookings, a.id, request.startTime, request.endTime);
    var free := FreeVenues(capable, bookings, request);
    var p := IsFreeDuring(bookings, request.startTime, request.endTime);
    assert p(a) && !p(b);
    assert Filter([b], p) == [] by {
      assert [b][1..] == [];
    }
    assert free == [a] by {
      assert [a, b][1..] == [b];
      assert Filter([a, b], p) == [a] + Filter([b], p);
    }
    var final := FinalCandidates(free, request);
    SingletonSubsequence(final, a);
    assert RankVenues([a], request) == [a];
  }

  lemma SingletonSubsequence(r: seq<Venue>, a: Venue)
    requires IsSubsequence(r, [a]) && r != []
    ensures r == [a]
  {
    assert [a][0] == a && [a][1..] == [];
    assert !IsSubsequence(r, []);
    assert r[0] == a && IsSubsequence(r[1..], []);
    assert r[1..] == [];
    assert |r| == 1;
  }

  // ---------------------------------------------------------------------
  // The store after allocateVenue and cancelVenueBooking

  function NotForEvent(eventId: int): Booking -> bool {
    (b: Booking) => b.eventId != eventId
  }

  /** The bookings other than the event's. */
  function WithoutEvent(bookings: seq<Booking>, eventId: int): (r: seq<Booking>)
    ensures forall b :: b in r <==> b in bookings && b.eventId != eventId
  {
    Filter(bookings, NotForEvent(eventId))
  }

  /** The booking `allocateVenue` saves, before it is given its id. */
  function NewBooking(v: Venue, request: AllocationRequest, now: Time): Booking {
    Booking(0, v.id, request.eventId, request.eventName, request.startTime, request.endTime,
            request.attendeeCount, request.notes, now, now)
  }

  function ResponseFor(d: Decision, request: AllocationRequest): AllocationResponse {
    match d
    case NoCapacity => AllocationResponse(false, None, None, NoVenuesWithSufficientCapacity(request.attendeeCount))
    case AllBooked => AllocationResponse(false, None, None, AllSuitableVenuesBooked)
    case NoneAfterFilters => AllocationResponse(false, None, None, NoSuitableVenuesAfterFilters)
    case Selected(v) => AllocationResponse(true, Some(v.id), Some(v.name), VenueAllocatedSuccessfully)
  }

  /** The bookings after `allocateVenue`: the event's earlier bookings are
      gone, and on success one new booking, with id `bookingId`, follows. */
  function BookingsAfterAllocation(
    venues: seq<Venue>, bookings: seq<Booking>, request: AllocationRequest, bookingId: int, now: Time): (r: seq<Booking>)
    ensures var remaining := WithoutEvent(bookings, request.eventId);
      |remaining| <= |r| <= |remaining| + 1 && r[..|remaining|] == remaining
  {
    var remaining := WithoutEvent(bookings, request.eventId);
    match Decide(venues, remaining, request)
    case Selected(v) => remaining + [NewBooking(v, request, now).(id := bookingId)]
    case _ => remaining
  }

  /** After an allocation the event has no booking on failure and exactly the
      new one on success. */
  lemma AllocationReplacesEventBookings(
    venues: seq<Venue>, bookings: seq<Booking>, request: AllocationRequest, bookingId: int, now: Time)
    ensures var after := BookingsAfterAllocation(venues, bookings, request, bookingId, now);
      var d := Decide(venues, WithoutEvent(bookings, request.eventId), request);
      VenueBookingRepository.FindByEventId(after, request.eventId) ==
        (if d.Selected? then [NewBooking(d.venue, request, now).(id := bookingId)] else [])
  {
    var remaining := WithoutEvent(bookings, request.eventId);
    var forEvent := VenueBookingRepository.ForEvent(request.eventId);
    var after := BookingsAfterAllocation(venues, bookings, request, bookingId, now);
    NoBookingLeftForEvent(bookings, request.eventId);
    var d := Decide(venues, remaining, request);
    if d.Selected? {
      var nb := NewBooking(d.venue, request, now).(id := bookingId);
      assert after == remaining + [nb];
      FilterAppend(remaining, [nb], forEvent);
      FilterCons(nb, [], forEvent);
      assert [nb] + [] == [nb];
    } else {
      assert after == remaining;
    }
  }

  /** An allocation keeps every booking of another event and adds none. */
  lemma AllocationKeepsOtherEventsBookings(
    venues: seq<Venue>, bookings: seq<Booking>, request: AllocationRequest, bookingId: int, now: Time)
    ensures var after := BookingsAfterAllocation(venues, bookings, request, bookingId, now);
      forall b: Booking :: b.eventId != request.eventId ==> (b in after <==> b in bookings)
  {
    var remaining := WithoutEvent(bookings, request.eventId);
    var after := BookingsAfterAllocation(venues, bookings, request, bookingId, now);
    var d := Decide(venues, remaining, request);
    if d.Selected? {
      var nb := NewBooking(d.venue, request, now).(id := bookingId);
      assert after == remaining + [nb];
      assert nb.eventId == request.eventId;
    } else {
      assert after == remaining;
    }
  }

  /** Once the event's bookings are gone, `findByEventId` finds none. */
  lemma NoBookingLeftForEvent(bookings: seq<Booking>, eventId: int)
    ensures VenueBookingRepository.FindByEventId(WithoutEvent(bookings, eventId), eventId) == []
  {
  }

  /** Right after a successful allocation of a well-formed window the chosen
      venue is no longer available in that window. */
  lemma AllocatedVenueUnavailableAfterwards(
    venues: seq<Venue>, bookings: seq<Booking>, request: AllocationRequest, bookingId: int, now: Time)
    requires request.startTime <= request.endTime
    requires Decide(venues, WithoutEvent(bookings, request.eventId), request).Selected?
    ensures var v := Decide(venues, WithoutEvent(bookings, request.eventId), request).venue;
      !CheckVenueAvailability(BookingsAfterAllocation(venues, bookings, request, bookingId, now),
                              v.id, request.startTime, request.endTime)
  {
    var v := Decide(venues, WithoutEvent(bookings, request.eventId), request).venue;
    var after := BookingsAfterAllocation(venues, bookings, request, bookingId, now);
    assert NewBooking(v, request, now).(id := bookingId) in after;
  }

  /** With an inverted window the booking just saved is no conflict for that
      window, so the chosen venue stays available in it and can be
      allocated again. */
  lemma InvertedWindowStaysAvailable(
    venues: seq<Venue>, bookings: seq<Booking>, request: AllocationRequest, bookingId: int, now: Time)
    requires request.endTime < request.startTime
    requires Decide(venues, WithoutEvent(bookings, request.eventId), request).Selected?
    ensures var v := Decide(venues, WithoutEvent(bookings, request.eventId), request).venue;
      CheckVenueAvailability(BookingsAfterAllocation(venues, bookings, request, bookingId, now),
                             v.id, request.startTime, request.endTime)
  {
    var remaining := WithoutEvent(bookings, request.eventId);
    SelectedMeetsHardConstraints(venues, remaining, request);
    var v := Decide(venues, remaining, request).venue;
    var saved := NewBooking(v, request, now).(id := bookingId);
    assert BookingsAfterAllocation(venues, bookings, request, bookingId, now) == remaining + [saved];
  }

  /** Steps 1 to 6 of `allocateVenue` on the venues and on the bookings left
      once the event's earlier ones are gone: the candidate list is narrowed
      by the hard filters, then each preference replaces it when it keeps
      some venue, and the best-ranked candidate is chosen. */
  method SelectVenue(venues: seq<Venue>, bookings: seq<Booking>, request: AllocationRequest) returns (decision: Decision)
    ensures decision == Decide(venues, bookings, request)
  {
    var candidates := VenueRepository.FindByCapacityGreaterThanEqualAndAvailabilityStatusTrue(venues, request.attendeeCount);
    if candidates == [] {
      return NoCapacity;
    }

    candidates := Filter(candidates, IsFreeDuring(bookings, request.startTime, request.endTime));
    if candidates == [] {
      return AllBooked;
    }
    ghost var free := candidates;
    candidates := NarrowByType(candidates, request.preferredVenueType);
    candidates := NarrowByLocation(candidates, request.preferredLocation);
    candidates := NarrowByAmenities(candidates, request.requiredAmenities);
    assert candidates == FinalCandidates(free, request);

    var rankedVenues := RankVenues(candidates, request);
    if rankedVenues == [] {
      // every preference keeps a non-empty list, so this cannot happen
      assert false;
      return NoneAfterFilters;
    }
    return Selected(rankedVenues[0]);
  }

  /** Step 3 as `allocateVenue` runs it: the typed candidates replace the
      candidates only when there are some. */
  method NarrowByType(candidates: seq<Venue>, preferred: Option<VenueType>) returns (r: seq<Venue>)
    ensures r == PreferType(candidates, preferred)
  {
    r := candidates;
    match preferred {
      case Some(venueType) =>
        var typedCandidates := Filter(candidates, HasType(venueType));
        if typedCandidates != [] {
          r := typedCandidates;
        }
      case None =>
    }
  }

  /** Step 4 as `allocateVenue` runs it. */
  method NarrowByLocation(candidates: seq<Venue>, preferred: Option<string>) returns (r: seq<Venue>)
    ensures r == PreferLocation(candidates, preferred)
  {
    r := candidates;
    match preferred {
      case Some(location) =>
        var locationCandidates := Filter(candidates, HasLocation(location));
        if locationCandidates != [] {
          r := locationCandidates;
        }
      case None =>
    }
  }

  /** Step 5 as `allocateVenue` runs it; an empty list is skipped. */
  method NarrowByAmenities(candidates: seq<Venue>, required: Option<seq<string>>) returns (r: seq<Venue>)
    ensures r == PreferAmenities(candidates, required)
  {
    r := candidates;
    match required {
      case Some(amenities) =>
        if amenities != [] {
          var amenityCandidates := Filter(candidates, HasAmenities(amenities));
          if amenityCandidates != [] {
            r := amenityCandidates;
          }
        }
      case None =>
    }
  }

  /** No two bookings of one venue overlap as half-open intervals. */
  predicate NoOverlappingBookings(bookings: seq<Booking>) {
    forall b, c :: b in bookings && c in bookings && b != c && b.venueId == c.venueId ==>
      !DateTimeUtil.IsOverlapping(b.startTime, b.endTime, c.startTime, c.endTime)
  }

  /** An allocation never double-books a venue: if the bookings were free of
      overlaps before, they still are afterwards. */
  lemma AllocationKeepsBookingsDisjoint(
    venues: seq<Venue>, bookings: seq<Booking>, request: AllocationRequest, bookingId: int, now: Time)
    requires NoOverlappingBookings(bookings)
    ensures NoOverlappingBookings(BookingsAfterAllocation(venues, bookings, request, bookingId, now))
  {
    var remaining := WithoutEvent(bookings, request.eventId);
    var d := Decide(venues, remaining, request);
    if d.Selected? {
      SelectedMeetsHardConstraints(venues, remaining, request);
      var nb := NewBooking(d.venue, request, now).(id := bookingId);
      var after := remaining + [nb];
      forall b, c | b in after && c in after && b != c && b.venueId == c.venueId
        ensures !DateTimeUtil.IsOverlapping(b.startTime, b.endTime, c.startTime, c.endTime)
      {
        if b == nb {
          assert c in remaining;
        } else if c == nb {
          assert b in remaining;
        }
      }
    }
  }

  /** `allocateVenue`: the event's earlier bookings are deleted first, the
      venue is selected on what remains, and a booking is saved only on
      success. Saving is taken to succeed. */
  method AllocateVenue(store: Catalog.Store, request: AllocationRequest, now: Time) returns (response: AllocationResponse)
    requires store.Valid()
    modifies store
    ensures store.Valid()
    ensures response == ResponseFor(Decide(old(store.venues), WithoutEvent(old(store.bookings), request.eventId), request), request)
    ensures store.bookings == BookingsAfterAllocation(old(store.venues), old(store.bookings), request, old(store.nextBookingId), now)
    ensures store.venues == old(store.venues) && store.amenities == old(store.amenities)
    ensures store.nextBookingId ==
      old(store.nextBookingId) + (if Decide(old(store.venues), WithoutEvent(old(store.bookings), request.eventId), request).Selected? then 1 else 0)
    ensures store.nextVenueId == old(store.nextVenueId) && store.nextAmenityId == old(store.nextAmenityId)
  {
    var existingBookings := VenueBookingRepository.FindByEventId(store.bookings, request.eventId);
    DeletedByEvent(store.bookings, request.eventId);
    if existingBookings != [] {
      store.DeleteAllBookings(existingBookings);
    } else {
      FilterKeepsAll(store.bookings, NotForEvent(request.eventId));
    }

    var decision := SelectVenue(store.venues, store.bookings, request);
    match decision {
      case NoCapacity =>
        response := AllocationResponse(false, None, None, NoVenuesWithSufficientCapacity(request.attendeeCount));
      case AllBooked =>
        response := AllocationResponse(false, None, None, AllSuitableVenuesBooked);
      case NoneAfterFilters =>
        response := AllocationResponse(false, None, None, NoSuitableVenuesAfterFilters);
      case Selected(selectedVenue) =>
        SelectedMeetsHardConstraints(store.venues, store.bookings, request);
        var booking := NewBooking(selectedVenue, request, now);
        var saved := store.SaveBooking(booking);
        response := AllocationResponse(true, Some(selectedVenue.id), Some(selectedVenue.name), VenueAllocatedSuccessfully);
    }
  }

  /** Deleting the bookings `findByEventId` returns leaves the other events' bookings. */
  lemma DeletedByEvent(bookings: seq<Booking>, eventId: int)
    requires Catalog.BookingIdsIdentify(bookings)
    ensures Filter(bookings, Catalog.NotAmong(Catalog.BookingIds(VenueBookingRepository.FindByEventId(bookings, eventId)))) ==
      WithoutEvent(bookings, eventId)
  {
    var found := VenueBookingRepository.FindByEventId(bookings, eventId);
    forall b | b in bookings
      ensures Catalog.NotAmong(Catalog.BookingIds(found))(b) == NotForEvent(eventId)(b)
    {
      if b.id in Catalog.BookingIds(found) {
        var c :| c in found && c.id == b.id;
      }
    }
    FilterCongruent(bookings, Catalog.NotAmong(Catalog.BookingIds(found)), NotForEvent(eventId));
  }

  /** `cancelVenueBooking`: deletes the event's bookings and says whether
      there were any. */
  method CancelVenueBooking(store: Catalog.Store, eventId: int) returns (cancelled: bool)
    requires store.Valid()
    modifies store
    ensures store.Valid()
    ensures cancelled <==> exists b :: b in old(store.bookings) && b.eventId == eventId
    ensures store.bookings == WithoutEvent(old(store.bookings), eventId)
    ensures !cancelled ==> store.bookings == old(store.bookings)
    ensures store.venues == old(store.venues) && store.amenities == old(store.amenities)
    ensures store.nextVenueId == old(store.nextVenueId) && store.nextBookingId == old(store.nextBookingId)
    ensures store.nextAmenityId == old(store.nextAmenityId)
  {
    var bookings := VenueBookingRepository.FindByEventId(store.bookings, eventId);
    DeletedByEvent(store.bookings, eventId);
    if bookings == [] {
      FilterKeepsAll(store.bookings, NotForEvent(eventId));
      return false;
    }
    assert bookings[0] in bookings;
    store.DeleteAllBookings(bookings);
    return true;
  }
}
