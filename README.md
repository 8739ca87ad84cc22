# tukio venue allocation, modelled in Dafny

tukio is a Kotlin/Spring service that keeps a catalogue of venues, their amenities and their bookings, and allocates a venue to an event. This project models its core and proves properties of the model:

- the allocator (`allocateVenue`). It deletes the event's earlier bookings. It then applies two hard filters: capacity and availability, then no conflicting booking. Next come three soft preferences (type, location, amenities); each is dropped when it would leave no candidate. The survivors are scored and ranked with a stable descending sort, and the first is booked.
- availability checks and cancellation (`checkVenueAvailability`, `cancelVenueBooking`);
- the hill-climbing optimiser, its neighbour move and its aggregate score (`VenueAllocationAlgorithm`);
- the venue service: lookup, create, partial update, delete with cascade, the find-or-create of amenities by case-insensitive name, the availability search, and the schedule;
- the repository queries, modelled as order-preserving filters over the stored sequences;
- the interval and duration helpers (`DateTimeUtil`).

Layout, following the program's packages:

| file | module | models |
|---|---|---|
| collections.dfy | Collections | `Option`, Kotlin's `filter`, subsequences |
| text.dfy | Text | `lowercase`, `contains(…, ignoreCase = true)`, `equals(…, ignoreCase = true)` on ASCII |
| model.dfy | Model | the entities and request/response records |
| catalog.dfy | Catalog | the store: the three tables behind the JPA repositories, as a class |
| date_time_util.dfy | DateTimeUtil | util/DateTimeUtil.kt |
| venue_booking_repository.dfy | VenueBookingRepository | repository/VenueBookingRepository.kt |
| venue_repository.dfy | VenueRepository | repository/VenueRepository.kt |
| venue_filters.dfy | VenueFilters | the type, location and amenity tests both services use |
| venue_allocation_service.dfy | VenueAllocationService | service/VenueAllocationServiceImpl.kt |
| venue_allocation_algorithm.dfy | VenueAllocationAlgorithm | util/VenueAllocationAlgorithm.kt |
| venue_service.dfy | VenueService | service/VenueServiceImpl.kt |

Modelling choices:

- Timestamps are integers (seconds). `VenueType` is a datatype wrapping its name, since its enum is not part of this model.
- `Long` and `Int` are unbounded `int`.
- `Double` arithmetic is exact `real` arithmetic.
- The store is the class `Catalog.Store`; its methods are the repository writes (`save`, `deleteAll`, `deleteById`). The service operations (`AllocateVenue`, `CancelVenueBooking`, `CreateVenue`, `UpdateVenue`, `DeleteVenue`) are methods of their own modules that take the store as a parameter and change it only through those methods. Each state-changing method has a `modifies` clause, and its `ensures` give the whole new state. The amenity rows that `processAmenities` saves are the function `VenueService.SavedAmenities` of the old table, the names and the next id, so the new amenity table is stated exactly, order included.
- The selection logic of `allocateVenue` is the function `Decide`. The imperative `SelectVenue` narrows a `candidates` variable step by step, as the source does, and is proved equal to `Decide`. `AllocateVenue` ties the response and the new bookings to `Decide`.
- `isOverlapping` (util/DateTimeUtil.kt:21) is a half-open test, but allocation does not use it. `findConflictingBookings` (repository/VenueBookingRepository.kt:22-33) and `findAvailableVenuesByTimeAndCapacity` (repository/VenueRepository.kt:44-60) compare closed intervals, so a booking that ends exactly when the window starts is a conflict. The model follows the queries. `ConflictWithoutOverlapIffTouching` states exactly where the two notions differ.
- `isOverlapping` is also true for some inverted intervals, which share no instant with anything: [5, 3) overlaps [0, 10). Its contract states the half-open meaning for non-empty intervals and only the one direction otherwise.
- The ranking is a stable descending insertion sort on any key `Venue -> real`, as Kotlin's `sortedByDescending` takes a key selector. `RankVenues` uses the score as the key.
- No operation rejects a window whose end is before its start. A booking with such a window is found by the closed-interval conflict query only for windows that cover [end, start], and never for its own window (`InvertedBookingConflicts`). So after an allocation for an inverted window the chosen venue is still available in that window and can be allocated again over it (`InvertedWindowStaysAvailable`; not executed). `AllocatedVenueUnavailableAfterwards` therefore requires `start <= end`.
- The branch that answers "No suitable venues found after applying all filters" is modelled, but it is proved unreachable. `SelectVenue` carries `assert false` there.
- `capacity / attendeeCount` with `attendeeCount == 0` is modelled as the `Double` result the comparisons see. For positive capacity, +Infinity fails every band, so the score is 20. For zero capacity, NaN also scores 20. For negative capacity, -Infinity scores 100. No precondition is placed on the attendee count.
- `deleteVenue` removes the venue's bookings with it. This follows from the cascade on `Venue.bookings`.

## Model

| member | source | states |
|---|---|---|
| Collections.Filter | src/main/kotlin/com/tikio/service/VenueAllocationServiceImpl.kt:49-51 | `filter` keeps exactly the elements satisfying the predicate, in their original order, with every occurrence of each: the result's multiset is the input's restricted to the predicate |
| Text.Lowercase | src/main/kotlin/com/tikio/service/VenueAllocationServiceImpl.kt:84-85 | `lowercase()` keeps the length, leaves no upper-case ASCII letter, and changes only upper-case letters, each to its lower-case partner |
| Text.EqualsIgnoreCase | src/main/kotlin/com/tikio/repository/VenueAmenityRepository.kt:9 | equal ignoring case iff the lengths agree and the strings match ignoring case position by position |
| Text.ContainsIgnoreCase | src/main/kotlin/com/tikio/service/VenueAllocationServiceImpl.kt:73 | true iff some position of the string starts a case-insensitive copy of the substring |
| Text.EqualsIgnoreCaseIsEquivalence | src/main/kotlin/com/tikio/repository/VenueAmenityRepository.kt:9 | name equality ignoring case is reflexive, symmetric and transitive |
| DateTimeUtil.IsOverlapping | src/main/kotlin/com/tikio/util/DateTimeUtil.kt:15-22 | intervals sharing an instant overlap; for non-empty intervals, overlapping means sharing an instant |
| DateTimeUtil.OverlapSymmetric | src/main/kotlin/com/tikio/util/DateTimeUtil.kt:21 | `isOverlapping` is unchanged when the two intervals are swapped |
| DateTimeUtil.TouchingIntervalsDoNotOverlap | src/main/kotlin/com/tikio/util/DateTimeUtil.kt:21 | intervals meeting only at an endpoint do not overlap |
| DateTimeUtil.OverlapIffNotSeparated | src/main/kotlin/com/tikio/util/DateTimeUtil.kt:21 | non-empty intervals overlap iff neither ends at or before the other's start |
| DateTimeUtil.DurationInMinutes | src/main/kotlin/com/tikio/util/DateTimeUtil.kt:27-29 | the whole minutes between the times, truncated toward zero, for either order of the arguments |
| DateTimeUtil.DurationOfEmptyInterval | src/main/kotlin/com/tikio/util/DateTimeUtil.kt:27-29 | equal arguments give 0 minutes |
| DateTimeUtil.DurationAntisymmetric | src/main/kotlin/com/tikio/util/DateTimeUtil.kt:27-29 | swapping the arguments negates the minutes |
| DateTimeUtil.DurationOfWholeMinutes | src/main/kotlin/com/tikio/util/DateTimeUtil.kt:27-29 | an interval of n whole minutes gives n |
| DateTimeUtil.DurationInHours | src/main/kotlin/com/tikio/util/DateTimeUtil.kt:34-37 | the hours times 60 equal the whole minutes |
| DateTimeUtil.DurationInHoursExamples | src/main/kotlin/com/tikio/util/DateTimeUtil.kt:34-37 | n whole hours give n; 90 minutes give 1.5 |
| VenueBookingRepository.FindByVenueId | src/main/kotlin/com/tikio/repository/VenueBookingRepository.kt:12 | exactly the bookings of the venue |
| VenueBookingRepository.FindByVenueIdAndStartTimeGreaterThanEqualAndEndTimeLessThanEqual | src/main/kotlin/com/tikio/repository/VenueBookingRepository.kt:14-18 | exactly the venue's bookings lying inside [start, end] |
| VenueBookingRepository.FindByEventId | src/main/kotlin/com/tikio/repository/VenueBookingRepository.kt:20 | exactly the bookings of the event |
| VenueBookingRepository.FindConflictingBookings | src/main/kotlin/com/tikio/repository/VenueBookingRepository.kt:22-33 | exactly the venue's bookings with start <= E and end >= S (closed intervals) |
| VenueBookingRepository.ConflictingAreVenueBookings | src/main/kotlin/com/tikio/repository/VenueBookingRepository.kt:12-33 | the conflicts of a venue are a subsequence of its bookings |
| VenueBookingRepository.ContainedBookingConflicts | src/main/kotlin/com/tikio/repository/VenueBookingRepository.kt:14-33 | a well-formed booking inside the window is among its conflicts |
| VenueBookingRepository.OverlapImpliesConflict | src/main/kotlin/com/tikio/repository/VenueBookingRepository.kt:22-33 | a booking that overlaps the window as half-open intervals is a conflict |
| VenueBookingRepository.ConflictWithoutOverlapIffTouching | src/main/kotlin/com/tikio/repository/VenueBookingRepository.kt:22-33 | for non-empty intervals, conflict without overlap happens iff the intervals touch |
| VenueBookingRepository.InvertedBookingConflicts | src/main/kotlin/com/tikio/repository/VenueBookingRepository.kt:22-33 | a booking ending before it starts conflicts iff the window covers [end, start], and never with its own window |
| VenueBookingRepository.BackToBackBookingConflicts | src/main/kotlin/com/tikio/repository/VenueBookingRepository.kt:22-33 | a 09:00-10:00 booking is a conflict for a 10:00-11:00 window although the intervals do not overlap |
| VenueRepository.FindByCapacityGreaterThanEqualAndAvailabilityStatusTrue | src/main/kotlin/com/tikio/repository/VenueRepository.kt:14 | exactly the available venues with capacity >= c |
| VenueRepository.FindByTypeAndAvailabilityStatusTrue | src/main/kotlin/com/tikio/repository/VenueRepository.kt:16 | exactly the available venues of the type |
| VenueRepository.FindByLocationContainingIgnoreCaseAndAvailabilityStatusTrue | src/main/kotlin/com/tikio/repository/VenueRepository.kt:18 | exactly the available venues whose location contains the text ignoring case |
| VenueRepository.FindAvailableVenuesByCapacityAndType | src/main/kotlin/com/tikio/repository/VenueRepository.kt:20-29 | exactly the available venues with capacity >= c and the type |
| VenueRepository.CapacityAndTypeIsIntersection | src/main/kotlin/com/tikio/repository/VenueRepository.kt:14-29 | the capacity-and-type query is the intersection of the capacity query and the type query, in order |
| VenueRepository.FindByAmenitiesIn | src/main/kotlin/com/tikio/repository/VenueRepository.kt:31-42 | exactly the available venues with at least one listed amenity whose count of distinct matched names is k (exact, case-sensitive names) |
| VenueRepository.AmenitiesInZeroCountFindsNothing | src/main/kotlin/com/tikio/repository/VenueRepository.kt:31-42 | a count of zero or less finds nothing, because of the inner join |
| VenueRepository.AmenitiesInFindsVenuesWithAllNames | src/main/kotlin/com/tikio/repository/VenueRepository.kt:31-42 | with distinct names and their number as k, the query finds exactly the available venues having every name |
| VenueRepository.FindAvailableVenuesByTimeAndCapacity | src/main/kotlin/com/tikio/repository/VenueRepository.kt:44-60 | exactly the available venues with capacity >= m and no booking with start <= E and end >= S |
| VenueRepository.TimeAndCapacityWithinCapacityQuery | src/main/kotlin/com/tikio/repository/VenueRepository.kt:14-60 | the time-and-capacity result is a subsequence of the capacity query's |
| Catalog.FindVenueById | src/main/kotlin/com/tikio/service/VenueServiceImpl.kt:27-28 | finds a stored venue with the id iff the id is stored |
| Catalog.FindAmenityByNameIgnoreCase | src/main/kotlin/com/tikio/repository/VenueAmenityRepository.kt:9 | finds a stored amenity whose name equals the given one ignoring case iff there is one |
| Catalog.FindAmenityFindsTheMatch | src/main/kotlin/com/tikio/repository/VenueAmenityRepository.kt:9 | with names unique ignoring case, the lookup returns the one matching amenity |
| Catalog.ReplaceVenue | src/main/kotlin/com/tikio/service/VenueServiceImpl.kt:71 | saving an existing venue replaces the stored venue with its id, position by position |
| Catalog.ReplaceVenueThenFind | src/main/kotlin/com/tikio/service/VenueServiceImpl.kt:71 | after the replacement the id finds the new venue, and the other venues are kept |
| Catalog.Store.SaveBooking | src/main/kotlin/com/tikio/service/VenueAllocationServiceImpl.kt:120 | the booking is appended with the next generated id and the booking id counter advances by one; the table invariants are kept |
| Catalog.Store.DeleteAllBookings | src/main/kotlin/com/tikio/service/VenueAllocationServiceImpl.kt:34 | exactly the bookings with the given ids are removed, the rest keep their order |
| Catalog.Store.SaveAmenity | src/main/kotlin/com/tikio/service/VenueServiceImpl.kt:143 | a new amenity with the next id is appended; names stay unique ignoring case |
| Catalog.Store.SaveNewVenue | src/main/kotlin/com/tikio/service/VenueServiceImpl.kt:47 | the venue is appended with the next generated id and the venue id counter advances by one |
| Catalog.Store.SaveExistingVenue | src/main/kotlin/com/tikio/service/VenueServiceImpl.kt:71 | the stored venue with the same id is replaced |
| Catalog.Store.DeleteVenueById | src/main/kotlin/com/tikio/service/VenueServiceImpl.kt:79 | the venue and, by cascade, its bookings are removed; every remaining booking's venue still exists |
| VenueFilters.LowercaseMembership | src/main/kotlin/com/tikio/service/VenueAllocationServiceImpl.kt:84-85 | the lower-cased name test is matching some amenity's name ignoring case |
| VenueFilters.HasAmenity | src/main/kotlin/com/tikio/service/VenueAllocationServiceImpl.kt:84-85 | the venue has the name iff some amenity's name equals it ignoring case |
| VenueFilters.HasAllAmenities | src/main/kotlin/com/tikio/service/VenueAllocationServiceImpl.kt:83-86 | the lower-cased asked names are among the venue's lower-cased amenity names; an empty list asks for nothing |
| VenueAllocationService.CheckVenueAvailability | src/main/kotlin/com/tikio/service/VenueAllocationServiceImpl.kt:136-139 | true iff every booking of the venue ends before the window starts or starts after it ends |
| VenueAllocationService.CapableVenues | src/main/kotlin/com/tikio/service/VenueAllocationServiceImpl.kt:37-38 | step 1: exactly the stored venues that are available and large enough, in their order |
| VenueAllocationService.FreeVenues | src/main/kotlin/com/tikio/service/VenueAllocationServiceImpl.kt:48-51 | step 2: exactly the candidates with no conflicting booking in the window, in their order |
| VenueAllocationService.HardFiltersAgreeWithRepositoryQuery | src/main/kotlin/com/tikio/service/VenueAllocationServiceImpl.kt:38-51 | filters 1 and 2 of the allocator select the same list as the repository's time-and-capacity query |
| VenueAllocationService.SoftFilter | src/main/kotlin/com/tikio/service/VenueAllocationServiceImpl.kt:62-91 | a preference keeps exactly the matching candidates when some match, and all candidates otherwise; it never empties a non-empty list |
| VenueAllocationService.PreferType | src/main/kotlin/com/tikio/service/VenueAllocationServiceImpl.kt:62-68 | step 3: the candidates of the preferred type if any, otherwise all |
| VenueAllocationService.PreferLocation | src/main/kotlin/com/tikio/service/VenueAllocationServiceImpl.kt:70-78 | step 4: the candidates whose location contains the preferred one ignoring case if any, otherwise all |
| VenueAllocationService.PreferAmenities | src/main/kotlin/com/tikio/service/VenueAllocationServiceImpl.kt:80-91 | step 5: the candidates with every required amenity if any; no change for a missing or empty list |
| VenueAllocationService.FinalCandidates | src/main/kotlin/com/tikio/service/VenueAllocationServiceImpl.kt:62-91 | after the preferences the candidates are a non-empty subsequence of the conflict-free venues |
| VenueAllocationService.CapacityScore | src/main/kotlin/com/tikio/service/VenueAllocationServiceImpl.kt:164-173 | the capacity part of the score lies between 20 and 100 |
| VenueAllocationService.CapacityScoreWithoutAttendees | src/main/kotlin/com/tikio/service/VenueAllocationServiceImpl.kt:166-173 | with zero attendees the IEEE quotient reaches the top band iff the capacity is negative (-Infinity); any other capacity scores 20 (+Infinity or NaN) |
| VenueAllocationService.CapacityScoreBands | src/main/kotlin/com/tikio/service/VenueAllocationServiceImpl.kt:166-173 | for a positive attendee count the capacity score is 100, 80, 60, 40 or 20 exactly on the integer bands 10c <= 11a, 4c <= 5a, 2c <= 3a, c <= 2a, c > 2a |
| VenueAllocationService.CapacityScoreExamples | src/main/kotlin/com/tikio/service/VenueAllocationServiceImpl.kt:166-173 | capacity equal to, twice and three times the attendees scores 100, 40 and 20 |
| VenueAllocationService.CapacityScoreMonotone | src/main/kotlin/com/tikio/service/VenueAllocationServiceImpl.kt:166-173 | a larger venue never scores higher on capacity |
| VenueAllocationService.MatchCount | src/main/kotlin/com/tikio/service/VenueAllocationServiceImpl.kt:178-181 | at most the number of required names, and equal to it iff the venue has them all |
| VenueAllocationService.AmenityScore | src/main/kotlin/com/tikio/service/VenueAllocationServiceImpl.kt:176-185 | between 0 and 50, 50 iff every required amenity is present, 0 when none are required |
| VenueAllocationService.LocationScore | src/main/kotlin/com/tikio/service/VenueAllocationServiceImpl.kt:187-192 | 0 or 30, and 30 iff a location is preferred and the venue's location contains it ignoring case |
| VenueAllocationService.TypeScore | src/main/kotlin/com/tikio/service/VenueAllocationServiceImpl.kt:194-199 | 0 or 40, and 40 iff the venue's type is the preferred one |
| VenueAllocationService.Score | src/main/kotlin/com/tikio/service/VenueAllocationServiceImpl.kt:161-202 | the total score lies between 20 and 220 |
| VenueAllocationService.InsertByKey | src/main/kotlin/com/tikio/service/VenueAllocationServiceImpl.kt:205 | inserting keeps the multiset plus the new venue |
| VenueAllocationService.InsertByKeySorted | src/main/kotlin/com/tikio/service/VenueAllocationServiceImpl.kt:205 | inserting into a list descending on the key keeps it descending |
| VenueAllocationService.InsertByKeyKeepsTies | src/main/kotlin/com/tikio/service/VenueAllocationServiceImpl.kt:205 | the inserted venue goes before the venues of its own key |
| VenueAllocationService.FilterPrependStep | src/main/kotlin/com/tikio/service/VenueAllocationServiceImpl.kt:205 | an element put in front of both sides keeps an equation between their filtered forms when it and the prefix are not both kept |
| VenueAllocationService.SortByKeyDescending | src/main/kotlin/com/tikio/service/VenueAllocationServiceImpl.kt:205 | `sortedByDescending`: the result is descending on the key and a permutation of the input |
| VenueAllocationService.SortByKeyStable | src/main/kotlin/com/tikio/service/VenueAllocationServiceImpl.kt:205 | the elements of any one key keep their input order |
| VenueAllocationService.RankVenues | src/main/kotlin/com/tikio/service/VenueAllocationServiceImpl.kt:159-206 | the ranking is a permutation of the candidates sorted by descending score |
| VenueAllocationService.RankVenuesStable | src/main/kotlin/com/tikio/service/VenueAllocationServiceImpl.kt:205 | the venues of any one score keep their input order (stable sort) |
| VenueAllocationService.BestIndex | src/main/kotlin/com/tikio/service/VenueAllocationServiceImpl.kt:94-106 | the earliest position holding the highest key |
| VenueAllocationService.SortedFirstIsBest | src/main/kotlin/com/tikio/service/VenueAllocationServiceImpl.kt:205 | the first element of the sort is the one at `BestIndex` |
| VenueAllocationService.RankedFirstIsBest | src/main/kotlin/com/tikio/service/VenueAllocationServiceImpl.kt:94-106 | `rankedVenues.first()` is the earliest of the highest-scoring candidates |
| VenueAllocationService.Decide | src/main/kotlin/com/tikio/service/VenueAllocationServiceImpl.kt:37-106 | the decision never is the "no suitable venues after filters" answer, and a selected venue is a stored one |
| VenueAllocationService.NoCapacityIff | src/main/kotlin/com/tikio/service/VenueAllocationServiceImpl.kt:38-46 | the first failure happens iff no available venue is large enough |
| VenueAllocationService.AllBookedIff | src/main/kotlin/com/tikio/service/VenueAllocationServiceImpl.kt:48-60 | the second failure happens iff large-enough available venues exist and every one has a conflict |
| VenueAllocationService.SelectedMeetsHardConstraints | src/main/kotlin/com/tikio/service/VenueAllocationServiceImpl.kt:38-106 | the chosen venue is stored, available, large enough and free of conflicts in [start, end] |
| VenueAllocationService.SelectedScoresBest | src/main/kotlin/com/tikio/service/VenueAllocationServiceImpl.kt:93-106 | the chosen venue has the maximal score among the final candidates and every earlier candidate scores strictly less |
| VenueAllocationService.RankedFirstScoresBest | src/main/kotlin/com/tikio/service/VenueAllocationServiceImpl.kt:94-106 | the first ranked venue occurs among the candidates, has the highest score, and every earlier candidate scores strictly less |
| VenueAllocationService.PreferredTypeHonoured | src/main/kotlin/com/tikio/service/VenueAllocationServiceImpl.kt:62-68 | when some qualifying venue has the preferred type, the chosen venue has it |
| VenueAllocationService.CapacityEfficiencyScenario | src/main/kotlin/com/tikio/service/VenueAllocationServiceImpl.kt:37-106 | rooms of 50 and 30 seats and 28 attendees: the 30-seat room is chosen |
| VenueAllocationService.RankTwo | src/main/kotlin/com/tikio/service/VenueAllocationServiceImpl.kt:205 | of two venues, the higher-scoring second one is ranked first |
| VenueAllocationService.ConflictExcludesBetterVenueScenario | src/main/kotlin/com/tikio/service/VenueAllocationServiceImpl.kt:30-106 | with the 30-seat room booked 09:00-10:00, a 09:30-10:30 request gets the 50-seat room |
| VenueAllocationService.WithoutEvent | src/main/kotlin/com/tikio/service/VenueAllocationServiceImpl.kt:30-35 | exactly the bookings of other events |
| VenueAllocationService.SingletonSubsequence | src/main/kotlin/com/tikio/service/VenueAllocationServiceImpl.kt:62-91 | a non-empty subsequence of a one-venue list is that list, so a single conflict-free venue survives the preferences |
| VenueAllocationService.BookingsAfterAllocation | src/main/kotlin/com/tikio/service/VenueAllocationServiceImpl.kt:30-120 | the bookings of other events, in order, followed by at most one new booking |
| VenueAllocationService.AllocationReplacesEventBookings | src/main/kotlin/com/tikio/service/VenueAllocationServiceImpl.kt:30-120 | afterwards `findByEventId` finds no booking of the event on failure and exactly the new booking on success |
| VenueAllocationService.AllocationKeepsOtherEventsBookings | src/main/kotlin/com/tikio/service/VenueAllocationServiceImpl.kt:30-120 | a booking of another event is stored afterwards iff it was stored before |
| VenueAllocationService.NoBookingLeftForEvent | src/main/kotlin/com/tikio/service/VenueAllocationServiceImpl.kt:30-35 | once the event's bookings are gone, `findByEventId` finds none |
| VenueAllocationService.AllocatedVenueUnavailableAfterwards | src/main/kotlin/com/tikio/service/VenueAllocationServiceImpl.kt:108-120 | after a success the chosen venue is no longer available in the window |
| VenueAllocationService.InvertedWindowStaysAvailable | src/main/kotlin/com/tikio/service/VenueAllocationServiceImpl.kt:48-120 | after allocating an inverted window the chosen venue is still available in that window |
| VenueAllocationService.AllocationKeepsBookingsDisjoint | src/main/kotlin/com/tikio/service/VenueAllocationServiceImpl.kt:48-120 | if no two bookings of a venue overlapped before, none do after the allocation |
| VenueAllocationService.NarrowByType | src/main/kotlin/com/tikio/service/VenueAllocationServiceImpl.kt:62-68 | the `let` block of step 3 computes `PreferType` |
| VenueAllocationService.NarrowByLocation | src/main/kotlin/com/tikio/service/VenueAllocationServiceImpl.kt:70-78 | the `let` block of step 4 computes `PreferLocation` |
| VenueAllocationService.NarrowByAmenities | src/main/kotlin/com/tikio/service/VenueAllocationServiceImpl.kt:80-91 | the `let` block of step 5 computes `PreferAmenities` |
| VenueAllocationService.SelectVenue | src/main/kotlin/com/tikio/service/VenueAllocationServiceImpl.kt:37-106 | the step-by-step narrowing of `candidates` reaches the decision `Decide` defines |
| VenueAllocationService.AllocateVenue | src/main/kotlin/com/tikio/service/VenueAllocationServiceImpl.kt:26-134 | the response and the new bookings are those of the decision on the bookings without the event's; the booking id counter advances exactly when a booking is saved; venues, amenities and their id counters are unchanged |
| VenueAllocationService.DeletedByEvent | src/main/kotlin/com/tikio/service/VenueAllocationServiceImpl.kt:30-34 | deleting the bookings `findByEventId` returns leaves exactly the other events' bookings |
| VenueAllocationService.CancelVenueBooking | src/main/kotlin/com/tikio/service/VenueAllocationServiceImpl.kt:142-150 | true iff the event had bookings; all of them are deleted, the others are kept, and nothing changes on false; venues, amenities and all three id counters are unchanged |
| VenueAllocationAlgorithm.GenerateNeighbor | src/main/kotlin/com/tikio/util/VenueAllocationAlgorithm.kt:55-73 | lists shorter than two come back unchanged; otherwise the venues at the two positions are swapped and everything else is kept |
| VenueAllocationAlgorithm.SwapKeepsColumns | src/main/kotlin/com/tikio/util/VenueAllocationAlgorithm.kt:67-70 | a swap keeps the event column and permutes the venue column |
| VenueAllocationAlgorithm.GenerateNeighborExample | src/main/kotlin/com/tikio/util/VenueAllocationAlgorithm.kt:67-70 | a concrete swap moves venues, not events |
| VenueAllocationAlgorithm.HillClimbingOptimize | src/main/kotlin/com/tikio/util/VenueAllocationAlgorithm.kt:12-50 | the result scores at least as well as the initial solution and is either that solution or strictly better; with no iterations or no stagnation allowance it is the initial solution; it keeps the event column and permutes the venues; at most maxIterations iterations run, and stopping early means the stagnation limit was reached |
| VenueAllocationAlgorithm.HillClimbingOptimizeWithDefaults | src/main/kotlin/com/tikio/util/VenueAllocationAlgorithm.kt:12-17 | with the default 1000 iterations and stagnation limit 100, the result is the initial solution or strictly better, keeps the events and permutes the venues; at most 1000 iterations run, and fewer means 100 non-improving ones in a row |
| VenueAllocationAlgorithm.AssignmentScore | src/main/kotlin/com/tikio/util/VenueAllocationAlgorithm.kt:93-112 | one assignment scores at most 50, and at most -950 when the venue is too small |
| VenueAllocationAlgorithm.FitScore | src/main/kotlin/com/tikio/util/VenueAllocationAlgorithm.kt:93-112 | the sum of the assignment scores; when every venue is too small it is at most -950 per assignment |
| VenueAllocationAlgorithm.RowConflicts | src/main/kotlin/com/tikio/util/VenueAllocationAlgorithm.kt:116-125 | the conflicts of row i counted up to a column are at most the number of later columns |
| VenueAllocationAlgorithm.ConflictCount | src/main/kotlin/com/tikio/util/VenueAllocationAlgorithm.kt:115-126 | at most one conflict per pair i < j of the rows counted |
| VenueAllocationAlgorithm.AllocationScore | src/main/kotlin/com/tikio/util/VenueAllocationAlgorithm.kt:83-129 | the aggregate score is at most the assignment sum and at most 50 per assignment |
| VenueAllocationAlgorithm.ScoreAllocation | src/main/kotlin/com/tikio/util/VenueAllocationAlgorithm.kt:83-129 | the two loops compute the assignment scores less 2000 per conflicting pair |
| VenueAllocationAlgorithm.PenaliseConflicts | src/main/kotlin/com/tikio/util/VenueAllocationAlgorithm.kt:114-126 | the nested loops take 2000 off the score for every conflicting pair |
| VenueAllocationAlgorithm.RowConflictsStep | src/main/kotlin/com/tikio/util/VenueAllocationAlgorithm.kt:116-125 | one more column adds one to the row count iff it conflicts |
| VenueAllocationAlgorithm.ConflictCountStep | src/main/kotlin/com/tikio/util/VenueAllocationAlgorithm.kt:115-126 | one more row adds that row's conflicts |
| VenueAllocationAlgorithm.FitScoreStep | src/main/kotlin/com/tikio/util/VenueAllocationAlgorithm.kt:93-112 | one more assignment adds its own score |
| VenueAllocationAlgorithm.EmptyAllocationScoresZero | src/main/kotlin/com/tikio/util/VenueAllocationAlgorithm.kt:90-128 | an empty allocation scores 0 |
| VenueAllocationAlgorithm.FitScoreAtMostFiftyEach | src/main/kotlin/com/tikio/util/VenueAllocationAlgorithm.kt:93-112 | the assignment scores sum to at most 50 per assignment |
| VenueAllocationAlgorithm.RowConflictsZeroIff | src/main/kotlin/com/tikio/util/VenueAllocationAlgorithm.kt:116-125 | one row has no penalty iff no later assignment conflicts with it |
| VenueAllocationAlgorithm.ConflictFreeIff | src/main/kotlin/com/tikio/util/VenueAllocationAlgorithm.kt:115-126 | no pair is penalised iff no two assignments at one venue have their ordered matrix entry set |
| VenueAllocationAlgorithm.ConflictPenalty | src/main/kotlin/com/tikio/util/VenueAllocationAlgorithm.kt:114-128 | the score equals the assignment sum iff there is no conflict, and any conflict costs at least 2000 |
| VenueAllocationAlgorithm.ConflictKeyIsOrdered | src/main/kotlin/com/tikio/util/VenueAllocationAlgorithm.kt:117-124 | the matrix is read only at the key (event of the earlier position, event of the later one); an entry under the reversed key costs nothing |
| VenueService.GetVenueById | src/main/kotlin/com/tikio/service/VenueServiceImpl.kt:26-30 | not found iff the id is not stored; otherwise the stored venue with the id |
| VenueService.FindOrCreateAmenity | src/main/kotlin/com/tikio/service/VenueServiceImpl.kt:142-143 | the stored match ignoring case, with the table and its id counter unchanged; or, when there is none, exactly one new row appended: the next id, the name as given and no description, with the id counter advanced by one |
| VenueService.MatchesStoredStep | src/main/kotlin/com/tikio/service/VenueServiceImpl.kt:139-145 | appending a stored match for the next name keeps every result stored and matching its name |
| VenueService.ReusesInitialStep | src/main/kotlin/com/tikio/service/VenueServiceImpl.kt:139-145 | a name with a match stored at the start is given that match |
| VenueService.ProcessedStep | src/main/kotlin/com/tikio/service/VenueServiceImpl.kt:139-145 | one find-or-create step keeps the loop invariant of `processAmenities`, and the rows added so far grow by the new amenity exactly when the lookup found none |
| VenueService.SavedAmenities | src/main/kotlin/com/tikio/service/VenueServiceImpl.kt:139-145 | the rows saved for the names, in order, as a function of the old table and the next id: at most one per name |
| VenueService.SavedNothingWhenAllStored | src/main/kotlin/com/tikio/service/VenueServiceImpl.kt:139-145 | when every name already has a match ignoring case, no row is saved |
| VenueService.SavedAmenitiesStep | src/main/kotlin/com/tikio/service/VenueServiceImpl.kt:141-143 | one find-or-create step moves the first remaining name's row, if any, from the rows still to be saved into the table |
| VenueService.FreshRowsStep | src/main/kotlin/com/tikio/service/VenueServiceImpl.kt:141-143 | a saved row takes the next id, the name as given and no description, and no earlier name matched it ignoring case |
| VenueService.ProgressStep | src/main/kotlin/com/tikio/service/VenueServiceImpl.kt:139-145 | one find-or-create step keeps the whole loop state of `processAmenities` |
| VenueService.AddedAsRequested | src/main/kotlin/com/tikio/service/VenueServiceImpl.kt:139-145 | each name with no match at the start got a new amenity with no description, named exactly as the first request equal to it ignoring case |
| VenueService.AddedGrewBy | src/main/kotlin/com/tikio/service/VenueServiceImpl.kt:139-145 | the table grew only by the added rows, which are attached and have consecutive ids from the old counter |
| VenueService.AddedOncePerNewAmenity | src/main/kotlin/com/tikio/service/VenueServiceImpl.kt:139-145 | the table grew by exactly one row per attached amenity that was not stored before |
| VenueService.ProcessedResult | src/main/kotlin/com/tikio/service/VenueServiceImpl.kt:139-145 | after all names each result is what the lookup now returns, and the results are exactly the stored amenities matching some name |
| VenueService.ProcessedAttaches | src/main/kotlin/com/tikio/service/VenueServiceImpl.kt:35-44 | the set of processed amenities holds every name's match and nothing else |
| VenueService.ProcessAmenities | src/main/kotlin/com/tikio/service/VenueServiceImpl.kt:139-145 | one amenity per name, in order, each the unique stored match ignoring case; earlier matches are reused; a name with no match at the start gets a new row with no description, spelt as the first request equal to it ignoring case; the new table is the old one followed by `SavedAmenities`, one row per new amenity with consecutive ids, and names stay unique ignoring case |
| VenueService.AttachAmenities | src/main/kotlin/com/tikio/service/VenueServiceImpl.kt:35-44 | the processed amenities as a set: every name's match and nothing else, with the new table and id counter given by `SavedAmenities` and the new rows as in `ProcessAmenities` |
| VenueService.CreateVenue | src/main/kotlin/com/tikio/service/VenueServiceImpl.kt:33-48 | the stored venue carries the request's fields, is available and has no image; every requested name's match ignoring case is attached and nothing else; the amenity table becomes the old one followed by `SavedAmenities` of the request's names, each new row attached, with the next ids, no description and the name as first requested, and the amenity id counter moves past them; the venue id counter advances by one and the booking one is kept |
| VenueService.ApplyProvidedFields | src/main/kotlin/com/tikio/service/VenueServiceImpl.kt:56-61 | each provided field replaces the venue's; no other field changes |
| VenueService.UpdateVenue | src/main/kotlin/com/tikio/service/VenueServiceImpl.kt:51-72 | not found iff the id is unknown; otherwise the provided fields are applied, imageUrl, id and createdAt are kept, amenities are replaced only when given, by every requested name's match and nothing else, with the amenity table and its id counter changed as in create, updatedAt is now, and the stored venue is replaced; the amenity id counter moves only when amenities are given and the other counters are kept |
| VenueService.UpdatedVenueIsFound | src/main/kotlin/com/tikio/service/VenueServiceImpl.kt:51-72 | after an update the id finds the updated venue and the other venues are kept |
| VenueService.DeleteVenue | src/main/kotlin/com/tikio/service/VenueServiceImpl.kt:75-80 | not found with nothing deleted iff the id is unknown; otherwise the venue and its bookings are removed; the amenities and all three id counters are unchanged |
| VenueService.MeetsFilters | src/main/kotlin/com/tikio/service/VenueServiceImpl.kt:91-113 | with no type, no location and no or empty amenity list every venue passes; a venue passing a given amenity list has every listed amenity |
| VenueService.FindAvailableVenues | src/main/kotlin/com/tikio/service/VenueServiceImpl.kt:82-116 | a subsequence of the time-and-capacity query with minCapacity defaulting to 0, holding exactly its venues that pass every given filter |
| VenueService.FindAvailableVenuesHasNoFallback | src/main/kotlin/com/tikio/service/VenueServiceImpl.kt:91-94 | a free, large-enough venue of another type is not returned: the filters have no fallback |
| VenueService.GetVenueSchedule | src/main/kotlin/com/tikio/service/VenueServiceImpl.kt:122-137 | not found iff the venue is unknown; otherwise its id, its name and exactly its bookings inside [start, end], in store order |

## Left out

- The HTTP controller, the Swagger configuration and the application bootstrap are routing and wiring only.
- DTO mapping (`toDTO`) is left out. Results are the stored entities, and `getAllVenues` is only that mapping over all venues.
- Logging is left out.
- The clock is a parameter: `LocalDateTime.now()` becomes `now`.
- The one-argument `getVenueSchedule(venueId)` is left out. It only supplies now and now plus one month as the window.
- `getEpochSeconds` is left out, because it depends on `java.time` zone handling.
- Transactions and concurrency are left out. Each service call is one atomic step on the store.
- The persistence-failure rethrow in `allocateVenue` is left out: saving is taken to succeed. The same holds for `createVenue`, although it saves `imageUrl = null` into a column that model/Venue.kt:49-50 declares `nullable = false`, which a database would presumably refuse (not executed).
- Randomness in `generateNeighbor` is a parameter: the positions are given, and `chooser(k)` supplies them in iteration `k`. The retry loop that redraws equal positions is a precondition that they differ.
- `Double` rounding, NaN handling in comparisons and infinite scores are not modelled; scores are exact reals. The only exception is division by zero attendees, described above.
- `Int` and `Long` overflow is not modelled.
- Case folding covers ASCII letters only.
- Repository results keep store order; the SQL queries promise no particular order.
- Time is integer seconds, not nanoseconds.
- `VenueAmenityRepository.findByNameIn` is left out: no service calls it.
- The `Venue.bookings` collection is not a field: a venue's bookings are the stored bookings with its id.
- VenueAllocationAlgorithm.HillClimbingOptimize: the iteration and stagnation counts are ghost results. The source returns only the best solution.
- VenueAllocationAlgorithm.HillClimbingOptimizeWithDefaults: its iteration and stagnation counts are ghost results too, for the same reason.
- VenueAllocationService.AllocateVenue: the booking's `createdAt`/`updatedAt` are `now`. The service would take them from the clock at construction.
