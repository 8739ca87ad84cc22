/** service/VenueServiceImpl.kt: venue lookup, creation, partial update and
    deletion over the store, the availability search with its hard filters,
    and a venue's schedule. Timestamps the service takes from the clock are
    the parameter `now`; the DTO mapping is not modelled, so results are the
    stored values themselves. */
module VenueService {
  import opened Collections
  import opened Model
  import Text
  import VenueBookingRepository
  import VenueRepository
  import Catalog
  import opened VenueFilters

  /** The amenity's name equals one of `names` ignoring case. */
  predicate NamedIn(a: Amenity, names: seq<string>) {
    exists n :: n in names && Text.EqualsIgnoreCase(a.name, n)
  }

  /** `getVenueById` */
  function GetVenueById(venues: seq<Venue>, id: int): (r: Lookup<Venue>)
    ensures r.NotFound? <==> id !in Catalog.VenueIds(venues)
    ensures r.NotFound? ==> r.id == id
    ensures r.Found? ==> r.value in venues && r.value.id == id
  {
    match Catalog.FindVenueById(venues, id)
    case Some(v) => Found(v)
    case None => NotFound(id)
  }

  /** `findByNameIgnoreCase(name) ?: save(VenueAmenity(name = name))` */
  method FindOrCreateAmenity(store: Catalog.Store, name: string) returns (amenity: Amenity)
    requires store.Valid()
    modifies store
    ensures store.Valid()
    ensures amenity in store.amenities && Text.EqualsIgnoreCase(amenity.name, name)
    ensures Catalog.FindAmenityByNameIgnoreCase(old(store.amenities), name).Some? ==>
      amenity == Catalog.FindAmenityByNameIgnoreCase(old(store.amenities), name).value &&
      store.amenities == old(store.amenities) && store.nextAmenityId == old(store.nextAmenityId)
    ensures Catalog.FindAmenityByNameIgnoreCase(old(store.amenities), name).None? ==>
      amenity == Amenity(old(store.nextAmenityId), name, None) &&
      store.amenities == old(store.amenities) + [amenity] &&
      store.nextAmenityId == old(store.nextAmenityId) + 1
    ensures store.venues == old(store.venues) && store.bookings == old(store.bookings)
    ensures store.nextVenueId == old(store.nextVenueId) && store.nextBookingId == old(store.nextBookingId)
  {
    var existing := Catalog.FindAmenityByNameIgnoreCase(store.amenities, name);
    match existing {
      case Some(a) =>
        amenity := a;
      case None =>
        amenity := store.SaveAmenity(name);
    }
  }

  /** `processAmenities`: for each name in turn, the stored amenity with that
      name ignoring case, or a newly saved one when there is none. Because a
      saved amenity is found by the later names, the store never holds two
      amenities whose names are equal ignoring case. */
  method ProcessAmenities(store: Catalog.Store, amenityNames: seq<string>) returns (amenities: seq<Amenity>)
    requires store.Valid()
    modifies store
    ensures store.Valid()
    ensures |amenities| == |amenityNames|
    ensures forall k :: 0 <= k < |amenityNames| ==>
      Catalog.FindAmenityByNameIgnoreCase(store.amenities, amenityNames[k]) == Some(amenities[k])
    ensures forall k :: 0 <= k < |amenityNames| ==>
      Catalog.FindAmenityByNameIgnoreCase(old(store.amenities), amenityNames[k]).Some? ==>
      amenities[k] == Catalog.FindAmenityByNameIgnoreCase(old(store.amenities), amenityNames[k]).value
    ensures forall a :: a in amenities <==> a in store.amenities && NamedIn(a, amenityNames)
    ensures forall k :: 0 <= k < |amenityNames| ==>
      Catalog.FindAmenityByNameIgnoreCase(old(store.amenities), amenityNames[k]).None? ==>
      amenities[k] !in old(store.amenities) && amenities[k].description.None? &&
      FirstRequested(amenityNames, amenities[k].name)
    ensures GrewBy(old(store.amenities), store.amenities, old(store.nextAmenityId), store.nextAmenityId,
                   amenityNames, (set a | a in amenities))
    ensures NewAsRequested(old(store.amenities), amenityNames, set a | a in amenities)
    ensures |store.amenities| ==
      |old(store.amenities)| + |(set a | a in amenities) - (set a | a in old(store.amenities))|
    ensures store.amenities ==
      old(store.amenities) + SavedAmenities(old(store.amenities), amenityNames, old(store.nextAmenityId))
    ensures store.nextAmenityId ==
      old(store.nextAmenityId) + |SavedAmenities(old(store.amenities), amenityNames, old(store.nextAmenityId))|
    ensures store.venues == old(store.venues) && store.bookings == old(store.bookings)
    ensures store.nextVenueId == old(store.nextVenueId) && store.nextBookingId == old(store.nextBookingId)
  {
    amenities := [];
    ghost var initial := store.amenities;
    ghost var added: seq<Amenity> := [];
    var k := 0;
    while k < |amenityNames|
      invariant store.Valid()
      invariant Progress(initial, old(store.nextAmenityId), store.amenities, store.nextAmenityId,
                         amenityNames, k, amenities, added)
      invariant store.venues == old(store.venues) && store.bookings == old(store.bookings)
      invariant store.nextVenueId == old(store.nextVenueId) && store.nextBookingId == old(store.nextBookingId)
    {
      ghost var before, nextBefore := store.amenities, store.nextAmenityId;
      var amenity := FindOrCreateAmenity(store, amenityNames[k]);
      added := ProgressStep(initial, old(store.nextAmenityId), before, store.amenities, nextBefore, store.nextAmenityId,
                            amenityNames, k, amenities, amenity, added);
      amenities := amenities + [amenity];
      k := k + 1;
    }
    assert amenityNames[..k] == amenityNames && amenityNames[k..] == [];
    ProcessedResult(initial, store.amenities, amenityNames, amenities, added);
    AddedAsRequested(initial, store.amenities, amenityNames, amenities, added, old(store.nextAmenityId));
    AddedGrewBy(initial, store.amenities, amenityNames, amenities, added, old(store.nextAmenityId));
    AddedOncePerNewAmenity(initial, store.amenities, amenityNames, amenities, added, old(store.nextAmenityId));
  }

  /** The rows `processAmenities` saves for `names`, in order, into the
      amenity table `stored` whose next id is `next`: a name with no match
      ignoring case is saved with that id, its own spelling and no
      description, and the later names find it. */
  function SavedAmenities(stored: seq<Amenity>, names: seq<string>, next: int): (r: seq<Amenity>)
    ensures |r| <= |names|
    decreases |names|
  {
    if names == [] then []
    else match Catalog.FindAmenityByNameIgnoreCase(stored, names[0])
      case Some(_) => SavedAmenities(stored, names[1..], next)
      case None =>
        var a := Amenity(next, names[0], None);
        [a] + SavedAmenities(stored + [a], names[1..], next + 1)
  }

  /** When every name already has a match ignoring case, nothing is saved. */
  lemma {:induction false} SavedNothingWhenAllStored(stored: seq<Amenity>, names: seq<string>, next: int)
    requires forall n :: n in names ==> Catalog.FindAmenityByNameIgnoreCase(stored, n).Some?
    ensures SavedAmenities(stored, names, next) == []
    decreases |names|
  {
    if names != [] {
      assert names[0] in names;
      assert forall n :: n in names[1..] ==> n in names;
      SavedNothingWhenAllStored(stored, names[1..], next);
    }
  }

  /** One find-or-create step moves the first of the remaining names from
      `SavedAmenities` into the table. */
  lemma SavedAmenitiesStep(before: seq<Amenity>, after: seq<Amenity>, names: seq<string>, k: int,
                           nextBefore: int, nextAfter: int, amenity: Amenity)
    requires 0 <= k < |names|
    requires Catalog.FindAmenityByNameIgnoreCase(before, names[k]).Some? ==>
      after == before && nextAfter == nextBefore
    requires Catalog.FindAmenityByNameIgnoreCase(before, names[k]).None? ==>
      amenity == Amenity(nextBefore, names[k], None) && after == before + [amenity] && nextAfter == nextBefore + 1
    ensures after + SavedAmenities(after, names[k + 1..], nextAfter) ==
            before + SavedAmenities(before, names[k..], nextBefore)
    ensures nextAfter + |SavedAmenities(after, names[k + 1..], nextAfter)| ==
            nextBefore + |SavedAmenities(before, names[k..], nextBefore)|
  {
    assert names[k..][0] == names[k] && names[k..][1..] == names[k + 1..];
  }

  /** The state of `processAmenities` after its first `k` names, with the
      table at `stored` and the id counter at `next`: `Processed` and
      `FreshRows` hold for those names, and the table with the rows still
      to be saved for the rest is the final table. */
  ghost predicate Progress(initial: seq<Amenity>, nextStart: int, stored: seq<Amenity>, next: int,
                           names: seq<string>, k: int, amenities: seq<Amenity>, added: seq<Amenity>) {
    0 <= k <= |names| &&
    Processed(initial, stored, names[..k], amenities, added) &&
    next == nextStart + |added| &&
    FreshRows(nextStart, names[..k], added) &&
    stored + SavedAmenities(stored, names[k..], next) == initial + SavedAmenities(initial, names, nextStart) &&
    next + |SavedAmenities(stored, names[k..], next)| == nextStart + |SavedAmenities(initial, names, nextStart)|
  }

  /** One find-or-create step, on the name at `k`, keeps `Progress`. */
  lemma ProgressStep(initial: seq<Amenity>, nextStart: int, before: seq<Amenity>, after: seq<Amenity>,
                     nextBefore: int, nextAfter: int, names: seq<string>, k: int,
                     amenities: seq<Amenity>, amenity: Amenity, added: seq<Amenity>)
    returns (added': seq<Amenity>)
    requires Progress(initial, nextStart, before, nextBefore, names, k, amenities, added) && k < |names|
    requires Catalog.AmenityNamesIdentify(before)
    requires amenity in after && Text.EqualsIgnoreCase(amenity.name, names[k])
    requires Catalog.FindAmenityByNameIgnoreCase(before, names[k]).Some? ==>
      amenity == Catalog.FindAmenityByNameIgnoreCase(before, names[k]).value &&
      after == before && nextAfter == nextBefore
    requires Catalog.FindAmenityByNameIgnoreCase(before, names[k]).None? ==>
      amenity == Amenity(nextBefore, names[k], None) && after == before + [amenity] && nextAfter == nextBefore + 1
    ensures Progress(initial, nextStart, after, nextAfter, names, k + 1, amenities + [amenity], added')
  {
    var done := names[..k];
    assert names[..k + 1] == done + [names[k]];
    FreshRowsStep(before, done, names[k], amenities, added, nextStart, amenity);
    added' := ProcessedStep(initial, before, after, done, names[k], amenities, amenity, added);
    SavedAmenitiesStep(before, after, names, k, nextBefore, nextAfter, amenity);
  }

  /** `n` is exactly the first of `names` that equals it ignoring case. */
  predicate FirstRequested(names: seq<string>, n: string) {
    exists j :: 0 <= j < |names| && names[j] == n &&
      forall i :: 0 <= i < j ==> !Text.EqualsIgnoreCase(names[i], n)
  }

  /** The amenities saved from id `nextStart` on, in order: consecutive ids,
      no description, and a name as first requested in `names`. */
  ghost predicate FreshRows(nextStart: int, names: seq<string>, added: seq<Amenity>) {
    forall i :: 0 <= i < |added| ==>
      added[i].id == nextStart + i && added[i].description.None? && FirstRequested(names, added[i].name)
  }

  /** The amenity table grew from `before` to `after` only by appending
      amenities from `attached`, each saved for `names` as `FreshRows` says,
      and the id counter moved past each. */
  ghost predicate GrewBy(before: seq<Amenity>, after: seq<Amenity>, nextBefore: int, nextAfter: int,
                         names: seq<string>, attached: set<Amenity>) {
    exists added :: after == before + added && nextAfter == nextBefore + |added| &&
      FreshRows(nextBefore, names, added) && forall a :: a in added ==> a in attached
  }

  /** Each attached amenity that was not stored before is a new one with no
      description, named exactly as first requested in `names`. */
  predicate NewAsRequested(before: seq<Amenity>, names: seq<string>, attached: set<Amenity>) {
    forall a :: a in attached && a !in before ==> a.description.None? && FirstRequested(names, a.name)
  }

  /** One find-or-create step keeps `FreshRows`: a saved amenity takes the
      next id and the name as given, and no earlier name matched it, or the
      lookup would have found that earlier name's amenity. */
  lemma FreshRowsStep(before: seq<Amenity>, names: seq<string>, name: string, amenities: seq<Amenity>,
                      added: seq<Amenity>, nextStart: int, amenity: Amenity)
    requires |amenities| == |names| && MatchesStored(before, names, amenities)
    requires FreshRows(nextStart, names, added)
    requires Catalog.FindAmenityByNameIgnoreCase(before, name).None? ==>
      amenity == Amenity(nextStart + |added|, name, None)
    ensures FreshRows(nextStart, names + [name],
                      if Catalog.FindAmenityByNameIgnoreCase(before, name).Some? then added else added + [amenity])
  {
    var names' := names + [name];
    var added' := if Catalog.FindAmenityByNameIgnoreCase(before, name).Some? then added else added + [amenity];
    forall i | 0 <= i < |added'|
      ensures added'[i].id == nextStart + i && added'[i].description.None? && FirstRequested(names', added'[i].name)
    {
      if i < |added| {
        var n := added[i].name;
        var j :| 0 <= j < |names| && names[j] == n && forall i :: 0 <= i < j ==> !Text.EqualsIgnoreCase(names[i], n);
        assert names'[j] == n && forall i :: 0 <= i < j ==> names'[i] == names[i];
      } else {
        forall i | 0 <= i < |names| ensures !Text.EqualsIgnoreCase(names'[i], name) {
          assert names'[i] == names[i] && amenities[i] in before;
        }
        assert names'[|names|] == name;
      }
    }
  }

  /** Each name with no match at the start got a new amenity, saved with
      no description and named exactly as first requested. */
  lemma AddedAsRequested(initial: seq<Amenity>, stored: seq<Amenity>, names: seq<string>,
                         amenities: seq<Amenity>, added: seq<Amenity>, nextStart: int)
    requires |amenities| == |names| && MatchesStored(stored, names, amenities)
    requires stored == initial + added && FreshRows(nextStart, names, added)
    ensures forall k :: 0 <= k < |names| ==>
      Catalog.FindAmenityByNameIgnoreCase(initial, names[k]).None? ==>
      amenities[k] !in initial && amenities[k].description.None? && FirstRequested(names, amenities[k].name)
    ensures NewAsRequested(initial, names, set a | a in amenities)
  {
    forall a | a in amenities && a !in initial
      ensures a.description.None? && FirstRequested(names, a.name)
    {
      var k :| 0 <= k < |amenities| && amenities[k] == a;
      assert a in stored;
      var i :| 0 <= i < |added| && added[i] == a;
    }
    forall k | 0 <= k < |names| && Catalog.FindAmenityByNameIgnoreCase(initial, names[k]).None?
      ensures amenities[k] !in initial
    {
    }
  }

  /** The table grew by `added`, which `FreshRows` describes and the
      result holds. */
  lemma AddedGrewBy(initial: seq<Amenity>, stored: seq<Amenity>, names: seq<string>,
                    amenities: seq<Amenity>, added: seq<Amenity>, nextStart: int)
    requires stored == initial + added && FreshRows(nextStart, names, added)
    requires forall a :: a in added ==> a in amenities
    ensures GrewBy(initial, stored, nextStart, nextStart + |added|, names, set a | a in amenities)
  {
    assert forall a :: a in added ==> a in (set a | a in amenities);
  }

  /** The table grew by exactly one row per amenity of the result that was
      not stored at the start: the added rows have distinct ids past the
      old ones. */
  lemma AddedOncePerNewAmenity(initial: seq<Amenity>, stored: seq<Amenity>, names: seq<string>,
                               amenities: seq<Amenity>, added: seq<Amenity>, nextStart: int)
    requires stored == initial + added && FreshRows(nextStart, names, added)
    requires forall a :: a in added ==> a in amenities
    requires forall a :: a in amenities ==> a in stored
    requires forall a :: a in initial ==> a.id < nextStart
    ensures |stored| == |initial| + |(set a | a in amenities) - (set a | a in initial)|
  {
    assert NoDuplicates(added) by {
      forall i, j | 0 <= i < j < |added| ensures added[i] != added[j] {
        assert added[i].id != added[j].id;
      }
    }
    DistinctElementsCount(added);
    assert Elements(added) == (set a | a in amenities) - (set a | a in initial) by {
      forall a | a in added ensures a !in initial {
        var i :| 0 <= i < |added| && added[i] == a;
      }
    }
  }

  /** What `processAmenities` leaves behind, with the results as the set
      `attached`: the amenity table went from `before` to `after` and the
      id counter from `nextBefore` to `nextAfter`, each name's stored match
      is attached and nothing else is, the new rows are saved as
      `GrewBy` and `NewAsRequested` say, and there is one new row per
      attached amenity that was not stored before. */
  ghost predicate AmenitiesProcessed(before: seq<Amenity>, after: seq<Amenity>, nextBefore: int, nextAfter: int,
                                     names: seq<string>, attached: set<Amenity>) {
    Attaches(after, names, attached) &&
    after == before + SavedAmenities(before, names, nextBefore) &&
    nextAfter == nextBefore + |SavedAmenities(before, names, nextBefore)| &&
    GrewBy(before, after, nextBefore, nextAfter, names, attached) &&
    NewAsRequested(before, names, attached) &&
    |after| == |before| + |attached - (set a | a in before)|
  }

  /** The amenities `processAmenities` attaches for `names`: each name's
      stored match ignoring case is attached, and nothing else is. */
  ghost predicate Attaches(stored: seq<Amenity>, names: seq<string>, attached: set<Amenity>) {
    (forall n :: n in names ==>
      Catalog.FindAmenityByNameIgnoreCase(stored, n).Some? &&
      Catalog.FindAmenityByNameIgnoreCase(stored, n).value in attached) &&
    (forall a :: a in attached <==> a in stored && NamedIn(a, names))
  }

  /** The results of `processAmenities`, as a set, are what `Attaches` asks. */
  lemma ProcessedAttaches(stored: seq<Amenity>, names: seq<string>, amenities: seq<Amenity>)
    requires |amenities| == |names|
    requires forall k :: 0 <= k < |names| ==>
      Catalog.FindAmenityByNameIgnoreCase(stored, names[k]) == Some(amenities[k])
    requires forall a :: a in amenities <==> a in stored && NamedIn(a, names)
    ensures Attaches(stored, names, set a | a in amenities)
  {
    forall n | n in names
      ensures Catalog.FindAmenityByNameIgnoreCase(stored, n).Some? &&
              Catalog.FindAmenityByNameIgnoreCase(stored, n).value in (set a | a in amenities)
    {
      var k :| 0 <= k < |names| && names[k] == n;
      assert amenities[k] in amenities;
    }
  }

  /** Each result is stored and matches its name ignoring case. */
  ghost predicate MatchesStored(stored: seq<Amenity>, names: seq<string>, amenities: seq<Amenity>)
    requires |amenities| == |names|
  {
    forall j :: 0 <= j < |names| ==>
      amenities[j] in stored && Text.EqualsIgnoreCase(amenities[j].name, names[j])
  }

  /** Each result is the match stored at the start, when there was one. */
  ghost predicate ReusesInitial(initial: seq<Amenity>, names: seq<string>, amenities: seq<Amenity>)
    requires |amenities| == |names|
  {
    forall j :: 0 <= j < |names| ==>
      Catalog.FindAmenityByNameIgnoreCase(initial, names[j]).Some? ==>
      amenities[j] == Catalog.FindAmenityByNameIgnoreCase(initial, names[j]).value
  }

  /** The state of `processAmenities` after the names `names`: one amenity per
      name, each stored and matching its name ignoring case, each the match
      already stored at the start when there was one, and the store grown
      only by amenities in the result. */
  ghost predicate Processed(initial: seq<Amenity>, stored: seq<Amenity>, names: seq<string>,
                            amenities: seq<Amenity>, added: seq<Amenity>) {
    |amenities| == |names| &&
    MatchesStored(stored, names, amenities) &&
    ReusesInitial(initial, names, amenities) &&
    stored == initial + added &&
    (forall a :: a in added ==> a in amenities)
  }

  /** Appending a stored match keeps `MatchesStored` as the store grows. */
  lemma MatchesStoredStep(before: seq<Amenity>, after: seq<Amenity>, names: seq<string>,
                          name: string, amenities: seq<Amenity>, amenity: Amenity)
    requires |amenities| == |names| && MatchesStored(before, names, amenities)
    requires forall a :: a in before ==> a in after
    requires amenity in after && Text.EqualsIgnoreCase(amenity.name, name)
    ensures MatchesStored(after, names + [name], amenities + [amenity])
  {
    var names', amenities' := names + [name], amenities + [amenity];
    assert forall j :: 0 <= j < |names| ==> names'[j] == names[j] && amenities'[j] == amenities[j];
  }

  /** A name that matched an amenity stored at the start is given that
      amenity, since the start of the store is still in it and names there
      are unique ignoring case. */
  lemma ReusesInitialStep(initial: seq<Amenity>, before: seq<Amenity>, names: seq<string>,
                          name: string, amenities: seq<Amenity>, amenity: Amenity)
    requires |amenities| == |names| && ReusesInitial(initial, names, amenities)
    requires forall a :: a in initial ==> a in before
    requires Catalog.AmenityNamesIdentify(before)
    requires Catalog.FindAmenityByNameIgnoreCase(before, name).Some? ==>
      amenity == Catalog.FindAmenityByNameIgnoreCase(before, name).value
    ensures ReusesInitial(initial, names + [name], amenities + [amenity])
  {
    var previous := Catalog.FindAmenityByNameIgnoreCase(initial, name);
    if previous.Some? {
      Catalog.FindAmenityFindsTheMatch(before, name, previous.value);
    }
    var names', amenities' := names + [name], amenities + [amenity];
    assert forall j :: 0 <= j < |names| ==> names'[j] == names[j] && amenities'[j] == amenities[j];
  }

  /** One find-or-create step keeps `Processed`. */
  lemma ProcessedStep(initial: seq<Amenity>, before: seq<Amenity>, after: seq<Amenity>, names: seq<string>,
                      name: string, amenities: seq<Amenity>, amenity: Amenity, added: seq<Amenity>)
    returns (added': seq<Amenity>)
    requires Processed(initial, before, names, amenities, added)
    requires Catalog.AmenityNamesIdentify(before)
    requires amenity in after && Text.EqualsIgnoreCase(amenity.name, name)
    requires Catalog.FindAmenityByNameIgnoreCase(before, name).Some? ==>
      amenity == Catalog.FindAmenityByNameIgnoreCase(before, name).value && after == before
    requires Catalog.FindAmenityByNameIgnoreCase(before, name).None? ==> after == before + [amenity]
    ensures Processed(initial, after, names + [name], amenities + [amenity], added')
    ensures added' == if Catalog.FindAmenityByNameIgnoreCase(before, name).Some? then added else added + [amenity]
  {
    added' := if Catalog.FindAmenityByNameIgnoreCase(before, name).Some? then added else added + [amenity];
    MatchesStoredStep(before, after, names, name, amenities, amenity);
    ReusesInitialStep(initial, before, names, name, amenities, amenity);
    assert after == initial + added';
  }

  /** What `Processed` on all the names means: each result is what the
      lookup now returns, earlier matches were reused, and the result holds
      exactly the stored amenities matching some name. */
  lemma ProcessedResult(initial: seq<Amenity>, stored: seq<Amenity>, names: seq<string>,
                        amenities: seq<Amenity>, added: seq<Amenity>)
    requires Processed(initial, stored, names, amenities, added)
    requires Catalog.AmenityNamesIdentify(stored)
    ensures |amenities| == |names|
    ensures forall j :: 0 <= j < |names| ==>
      Catalog.FindAmenityByNameIgnoreCase(stored, names[j]) == Some(amenities[j])
    ensures forall j :: 0 <= j < |names| ==>
      Catalog.FindAmenityByNameIgnoreCase(initial, names[j]).Some? ==>
      amenities[j] == Catalog.FindAmenityByNameIgnoreCase(initial, names[j]).value
    ensures forall a :: a in amenities <==> a in stored && NamedIn(a, names)
    ensures stored == initial + added && forall a :: a in added ==> a in amenities
  {
    forall j | 0 <= j < |names|
      ensures Catalog.FindAmenityByNameIgnoreCase(stored, names[j]) == Some(amenities[j])
    {
      Catalog.FindAmenityFindsTheMatch(stored, names[j], amenities[j]);
    }
    forall a | a in stored && NamedIn(a, names) ensures a in amenities {
      var n :| n in names && Text.EqualsIgnoreCase(a.name, n);
      var j :| 0 <= j < |names| && names[j] == n;
      Catalog.FindAmenityFindsTheMatch(stored, n, a);
    }
    forall a | a in amenities ensures NamedIn(a, names) {
      var j :| 0 <= j < |amenities| && amenities[j] == a;
      assert names[j] in names;
    }
  }

  /** `processAmenities(...).toMutableSet()`: the processed amenities as the
      set a venue holds. */
  method AttachAmenities(store: Catalog.Store, names: seq<string>) returns (attached: set<Amenity>)
    requires store.Valid()
    modifies store
    ensures store.Valid()
    ensures AmenitiesProcessed(old(store.amenities), store.amenities, old(store.nextAmenityId), store.nextAmenityId,
                               names, attached)
    ensures store.venues == old(store.venues) && store.bookings == old(store.bookings)
    ensures store.nextVenueId == old(store.nextVenueId) && store.nextBookingId == old(store.nextBookingId)
  {
    var amenities := ProcessAmenities(store, names);
    ProcessedAttaches(store.amenities, names, amenities);
    attached := set a | a in amenities;
  }

  /** `createVenue`: the venue is stored with the request's fields, the
      processed amenities, availability `true` and no image. */
  method CreateVenue(store: Catalog.Store, request: VenueCreateRequest, now: Time) returns (created: Venue)
    requires store.Valid()
    modifies store
    ensures store.Valid()
    ensures created.id == old(store.nextVenueId)
    ensures created.name == request.name && created.location == request.location
    ensures created.capacity == request.capacity && created.venueType == request.venueType
    ensures created.description == request.description
    ensures created.availabilityStatus && created.imageUrl.None?
    ensures created.createdAt == now && created.updatedAt == now
    ensures AmenitiesProcessed(old(store.amenities), store.amenities, old(store.nextAmenityId), store.nextAmenityId,
                               request.amenities, created.amenities)
    ensures store.venues == old(store.venues) + [created]
    ensures store.bookings == old(store.bookings)
    ensures store.nextVenueId == old(store.nextVenueId) + 1 && store.nextBookingId == old(store.nextBookingId)
  {
    var attached := AttachAmenities(store, request.amenities);
    var venue := Venue(0, request.name, request.location, request.capacity, request.venueType,
                       request.description, true, attached, now, now, None);
    created := store.SaveNewVenue(venue);
  }

  /** The field assignments of `updateVenue`: each of the six fields the
      request provides replaces the venue's, and nothing else changes. */
  method ApplyProvidedFields(before: Venue, request: VenueUpdateRequest) returns (venue: Venue)
    ensures venue.name == request.name.GetOr(before.name)
    ensures venue.location == request.location.GetOr(before.location)
    ensures venue.capacity == request.capacity.GetOr(before.capacity)
    ensures venue.venueType == request.venueType.GetOr(before.venueType)
    ensures venue.description == (if request.description.Some? then request.description else before.description)
    ensures venue.availabilityStatus == request.availabilityStatus.GetOr(before.availabilityStatus)
    ensures venue.(name := before.name, location := before.location, capacity := before.capacity,
                   venueType := before.venueType, description := before.description,
                   availabilityStatus := before.availabilityStatus) == before
  {
    venue := before;
    if request.name.Some? { venue := venue.(name := request.name.value); }
    if request.location.Some? { venue := venue.(location := request.location.value); }
    if request.capacity.Some? { venue := venue.(capacity := request.capacity.value); }
    if request.venueType.Some? { venue := venue.(venueType := request.venueType.value); }
    if request.description.Some? { venue := venue.(description := request.description); }
    if request.availabilityStatus.Some? { venue := venue.(availabilityStatus := request.availabilityStatus.value); }
  }

  /** `updateVenue`: each field the request provides replaces the stored
      one; the request's image URL is never applied; the amenities are
      replaced only when a list is given; `updatedAt` becomes `now`. */
  method UpdateVenue(store: Catalog.Store, id: int, request: VenueUpdateRequest, now: Time) returns (result: Lookup<Venue>)
    requires store.Valid()
    modifies store
    ensures store.Valid()
    ensures result.NotFound? <==> id !in Catalog.VenueIds(old(store.venues))
    ensures result.NotFound? ==>
      result.id == id && store.venues == old(store.venues) && store.amenities == old(store.amenities) &&
      store.nextAmenityId == old(store.nextAmenityId)
    ensures result.Found? ==>
      var before := Catalog.FindVenueById(old(store.venues), id).value;
      var after := result.value;
      after.id == id &&
      after.name == request.name.GetOr(before.name) &&
      after.location == request.location.GetOr(before.location) &&
      after.capacity == request.capacity.GetOr(before.capacity) &&
      after.venueType == request.venueType.GetOr(before.venueType) &&
      after.description == (if request.description.Some? then request.description else before.description) &&
      after.availabilityStatus == request.availabilityStatus.GetOr(before.availabilityStatus) &&
      after.imageUrl == before.imageUrl && after.createdAt == before.createdAt &&
      after.updatedAt == now &&
      (request.amenities.None? ==>
        after.amenities == before.amenities && store.amenities == old(store.amenities) &&
        store.nextAmenityId == old(store.nextAmenityId)) &&
      (request.amenities.Some? ==>
        AmenitiesProcessed(old(store.amenities), store.amenities, old(store.nextAmenityId), store.nextAmenityId,
                           request.amenities.value, after.amenities)) &&
      store.venues == Catalog.ReplaceVenue(old(store.venues), after)
    ensures store.bookings == old(store.bookings)
    ensures store.nextVenueId == old(store.nextVenueId) && store.nextBookingId == old(store.nextBookingId)
  {
    var found := Catalog.FindVenueById(store.venues, id);
    if found.None? {
      return NotFound(id);
    }
    var venue := ApplyProvidedFields(found.value, request);

    if request.amenities.Some? {
      var attached := AttachAmenities(store, request.amenities.value);
      venue := venue.(amenities := attached);
    }

    venue := venue.(updatedAt := now);
    store.SaveExistingVenue(venue);
    return Found(venue);
  }

  /** After an update the venue's id finds the updated venue, and the other
      venues are as they were. */
  lemma UpdatedVenueIsFound(venues: seq<Venue>, after: Venue)
    requires Catalog.VenueIdsIdentify(venues) && after.id in Catalog.VenueIds(venues)
    ensures GetVenueById(Catalog.ReplaceVenue(venues, after), after.id) == Found(after)
    ensures forall w :: w in venues && w.id != after.id ==> w in Catalog.ReplaceVenue(venues, after)
  {
    Catalog.ReplaceVenueThenFind(venues, after);
  }

  /** `deleteVenue`: not found, with nothing deleted, for an unknown id;
      otherwise the venue is removed together with its bookings. */
  method DeleteVenue(store: Catalog.Store, id: int) returns (result: Lookup<()>)
    requires store.Valid()
    modifies store
    ensures store.Valid()
    ensures result.NotFound? <==> id !in Catalog.VenueIds(old(store.venues))
    ensures result.NotFound? ==>
      result.id == id && store.venues == old(store.venues) && store.bookings == old(store.bookings)
    ensures result.Found? ==>
      store.venues == Filter(old(store.venues), Catalog.NotWithId(id)) &&
      store.bookings == Filter(old(store.bookings), Catalog.NotAtVenue(id))
    ensures id !in Catalog.VenueIds(store.venues)
    ensures forall b :: b in store.bookings ==> b.venueId != id
    ensures store.amenities == old(store.amenities)
    ensures store.nextVenueId == old(store.nextVenueId) && store.nextBookingId == old(store.nextBookingId)
    ensures store.nextAmenityId == old(store.nextAmenityId)
  {
    if id !in Catalog.VenueIds(store.venues) {
      return NotFound(id);
    }
    store.DeleteVenueById(id);
    return Found(());
  }

  /** The filters of `findAvailableVenues` beyond time and capacity, each
      applied only when given (an empty amenity list asks for nothing). */
  predicate MeetsFilters(v: Venue, request: VenueAvailabilityRequest)
    ensures (request.venueType.None? && request.location.None? &&
             (request.requiredAmenities.None? || request.requiredAmenities.value == [])) ==>
      MeetsFilters(v, request)
    ensures MeetsFilters(v, request) && request.requiredAmenities.Some? ==>
      forall n :: n in request.requiredAmenities.value ==> HasAmenity(v, n)
  {
    (request.venueType.None? || v.venueType == request.venueType.value) &&
    (request.location.None? || Text.ContainsIgnoreCase(v.location, request.location.value)) &&
    (request.requiredAmenities.None? || HasAllAmenities(v, request.requiredAmenities.value))
  }

  /** `findAvailableVenues`: the repository's time-and-capacity query with
      `minCapacity` defaulting to 0, narrowed by each given filter. Unlike the
      allocator's preferences these filters have no fallback; the result can
      be empty. */
  function FindAvailableVenues(venues: seq<Venue>, bookings: seq<Booking>, request: VenueAvailabilityRequest): (r: seq<Venue>)
    ensures var available := VenueRepository.FindAvailableVenuesByTimeAndCapacity(
        venues, bookings, request.startTime, request.endTime, request.minCapacity.GetOr(0));
      IsSubsequence(r, available) &&
      forall v :: v in r <==> v in available && MeetsFilters(v, request)
  {
    var minCapacity := request.minCapacity.GetOr(0);
    var available := VenueRepository.FindAvailableVenuesByTimeAndCapacity(
      venues, bookings, request.startTime, request.endTime, minCapacity);
    var typed := if request.venueType.Some? then Filter(available, HasType(request.venueType.value)) else available;
    var located := if request.location.Some? then Filter(typed, HasLocation(request.location.value)) else typed;
    var equipped :=
      if request.requiredAmenities.Some? && request.requiredAmenities.value != []
      then Filter(located, HasAmenities(request.requiredAmenities.value))
      else located;
    SubsequenceReflexive(available);
    SubsequenceReflexive(typed);
    SubsequenceReflexive(located);
    SubsequenceTransitive(located, typed, available);
    SubsequenceTransitive(equipped, located, available);
    equipped
  }

  /** The filters are hard: one venue of another type than the one asked
      for is not returned, although it is free and large enough. */
  lemma FindAvailableVenuesHasNoFallback(v: Venue, request: VenueAvailabilityRequest)
    requires v.availabilityStatus && v.capacity >= request.minCapacity.GetOr(0)
    requires request.venueType.Some? && v.venueType != request.venueType.value
    ensures v in VenueRepository.FindAvailableVenuesByTimeAndCapacity(
      [v], [], request.startTime, request.endTime, request.minCapacity.GetOr(0))
    ensures FindAvailableVenues([v], [], request) == []
  {
  }

  /** `getVenueSchedule(venueId, startDate, endDate)`: not found for an
      unknown venue; otherwise its id, its name and exactly its bookings lying
      inside [startDate, endDate], in store order. */
  function GetVenueSchedule(
    venues: seq<Venue>, bookings: seq<Booking>, venueId: int, startDate: Time, endDate: Time): (r: Lookup<VenueSchedule>)
    ensures r.NotFound? <==> venueId !in Catalog.VenueIds(venues)
    ensures r.Found? ==>
      r.value.venueId == venueId &&
      (exists v :: v in venues && v.id == venueId && v.name == r.value.venueName) &&
      IsSubsequence(r.value.bookings, bookings) &&
      forall b :: b in r.value.bookings <==>
        b in bookings && b.venueId == venueId && b.startTime >= startDate && b.endTime <= endDate
  {
    match Catalog.FindVenueById(venues, venueId)
    case None => NotFound(venueId)
    case Some(venue) =>
      var inWindow := VenueBookingRepository.FindByVenueIdAndStartTimeGreaterThanEqualAndEndTimeLessThanEqual(
        bookings, venueId, startDate, endDate);
      Found(VenueSchedule(venue.id, venue.name, inWindow))
  }
}
