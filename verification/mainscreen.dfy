/**
 * The main screen's list logic (MainScreen.kt): the "nearby" proximity filter,
 * the four-way choice between it and the category filter, and the two DAO
 * calls the screen makes on behalf of the form and the delete action.
 *
 * `calculateDistance` lives in a utilities file that is not part of this model;
 * it is passed in as `distance`, a function the model knows nothing about.
 */
module MainScreen {
  import opened Wrappers
  import opened Seqs
  import opened Entity
  import Dao
  import CreateForm

  /** The dropdown entry that switches the category filter off. */
  const AllCategories: string := "Toutes"

  /** The proximity radius, in the unit `calculateDistance` returns (kilometres). */
  const RadiusKm: real := 10.0

  /** `calculateDistance(lat1, lon1, lat2, lon2)`. */
  type Distance = (real, real, real, real) -> real

  /** The event has both coordinates and lies within the radius of (`lat`, `lon`). */
  predicate IsNear(lat: real, lon: real, e: EventEntity, distance: Distance) {
    && e.latitude.Some? && e.longitude.Some?
    && distance(lat, lon, e.latitude.value, e.longitude.value) <= RadiusKm
  }

  /** `it.category == selectedCategory`: a null category equals no string. */
  predicate HasCategory(e: EventEntity, category: string) {
    e.category == Some(category)
  }

  /** `nearbyEvents`: empty unless both current coordinates are known. */
  function NearbyEvents(events: seq<EventEntity>, currentLat: Option<real>, currentLon: Option<real>,
                        distance: Distance): (r: seq<EventEntity>)
    ensures IsSubsequence(r, events)
    ensures currentLat.None? || currentLon.None? ==> r == []
    ensures currentLat.Some? && currentLon.Some? ==>
      forall i | 0 <= i < |events| ::
        events[i] in r <==> IsNear(currentLat.value, currentLon.value, events[i], distance)
    ensures forall i | 0 <= i < |r| ::
      currentLat.Some? && currentLon.Some? && IsNear(currentLat.value, currentLon.value, r[i], distance)
    ensures currentLat.Some? && currentLon.Some? ==>
      forall x :: multiset(r)[x] ==
        if IsNear(currentLat.value, currentLon.value, x, distance) then multiset(events)[x] else 0
  {
    if currentLat.Some? && currentLon.Some? then
      var near := e => IsNear(currentLat.value, currentLon.value, e, distance);
      FilterCounts(events, near);
      Filter(events, near)
    else []
  }

  /**
   * A row is shown when it passes the category filter (unless that is off) and,
   * when at least one row is near, it is near too.
   */
  predicate Shown(e: EventEntity, selectedCategory: string, anyNear: bool, near: bool) {
    && (selectedCategory == AllCategories || HasCategory(e, selectedCategory))
    && (anyNear ==> near)
  }

  /** `displayedEvents`: the `when` over the nearby list and the selected category. */
  function DisplayedEvents(events: seq<EventEntity>, selectedCategory: string,
                           currentLat: Option<real>, currentLon: Option<real>,
                           distance: Distance): (r: seq<EventEntity>)
    ensures IsSubsequence(r, events)
    ensures var nearby := NearbyEvents(events, currentLat, currentLon, distance);
      forall i | 0 <= i < |events| ::
        events[i] in r <==> Shown(events[i], selectedCategory, |nearby| > 0, events[i] in nearby)
  {
    var nearby := NearbyEvents(events, currentLat, currentLon, distance);
    if |nearby| > 0 && selectedCategory != AllCategories then
      var r := Filter(nearby, e => HasCategory(e, selectedCategory));
      SubsequenceTransitive(r, nearby, events);
      r
    else if selectedCategory != AllCategories then
      Filter(events, e => HasCategory(e, selectedCategory))
    else if |nearby| > 0 then
      nearby
    else
      SubsequenceReflexive(events);
      events
  }

  /** The whole projection is one filter of the full list by `Shown`. */
  lemma {:induction false} DisplayedIsOneFilter(events: seq<EventEntity>, selectedCategory: string,
                             currentLat: Option<real>, currentLon: Option<real>, distance: Distance)
    ensures var nearby := NearbyEvents(events, currentLat, currentLon, distance);
      DisplayedEvents(events, selectedCategory, currentLat, currentLon, distance)
      == Filter(events, e => Shown(e, selectedCategory, |nearby| > 0, e in nearby))
  {
    var nearby := NearbyEvents(events, currentLat, currentLon, distance);
    var shown := e => Shown(e, selectedCategory, |nearby| > 0, e in nearby);
    var category := e => HasCategory(e, selectedCategory);
    if currentLat.Some? && currentLon.Some? {
      var near := e => IsNear(currentLat.value, currentLon.value, e, distance);
      assert nearby == Filter(events, near);
      if |nearby| > 0 && selectedCategory != AllCategories {
        FilterFilter(events, near, category, shown);
      } else if selectedCategory != AllCategories {
        FilterCongruent(events, category, shown);
      } else if |nearby| > 0 {
        FilterCongruent(events, near, shown);
      } else {
        FilterAll(events, shown);
      }
    } else if selectedCategory != AllCategories {
      FilterCongruent(events, category, shown);
    } else {
      FilterAll(events, shown);
    }
  }

  /** A shown row appears as often as in the full list, any other row not at all. */
  lemma DisplayedCounts(events: seq<EventEntity>, selectedCategory: string,
                        currentLat: Option<real>, currentLon: Option<real>, distance: Distance)
    ensures var nearby := NearbyEvents(events, currentLat, currentLon, distance);
      var r := DisplayedEvents(events, selectedCategory, currentLat, currentLon, distance);
      forall x :: multiset(r)[x] ==
        if Shown(x, selectedCategory, |nearby| > 0, x in nearby) then multiset(events)[x] else 0
  {
    var nearby := NearbyEvents(events, currentLat, currentLon, distance);
    DisplayedIsOneFilter(events, selectedCategory, currentLat, currentLon, distance);
    FilterCounts(events, e => Shown(e, selectedCategory, |nearby| > 0, e in nearby));
  }

  /** Near rows and a category: exactly the near rows of that category, possibly none. */
  lemma NearbyAndCategory(events: seq<EventEntity>, selectedCategory: string,
                          lat: real, lon: real, distance: Distance, e: EventEntity)
    requires selectedCategory != AllCategories
    requires |NearbyEvents(events, Some(lat), Some(lon), distance)| > 0
    ensures e in DisplayedEvents(events, selectedCategory, Some(lat), Some(lon), distance)
      <==> e in events && IsNear(lat, lon, e, distance) && HasCategory(e, selectedCategory)
  {
    var r := DisplayedEvents(events, selectedCategory, Some(lat), Some(lon), distance);
    if e in r {
      SubsequenceMembers(r, events, e);
    }
  }

  /** No near rows and a category: the category match over the whole list, location ignored. */
  lemma NoNearbyFallsBackToCategory(events: seq<EventEntity>, selectedCategory: string,
                                    currentLat: Option<real>, currentLon: Option<real>, distance: Distance)
    requires selectedCategory != AllCategories
    requires |NearbyEvents(events, currentLat, currentLon, distance)| == 0
    ensures DisplayedEvents(events, selectedCategory, currentLat, currentLon, distance)
      == Filter(events, e => HasCategory(e, selectedCategory))
  {
  }

  /** Filter off: the near rows when there are any, otherwise the whole list unchanged. */
  lemma AllCategoriesShowsNearbyOrAll(events: seq<EventEntity>,
                                      currentLat: Option<real>, currentLon: Option<real>, distance: Distance)
    ensures var nearby := NearbyEvents(events, currentLat, currentLon, distance);
      DisplayedEvents(events, AllCategories, currentLat, currentLon, distance)
      == if |nearby| > 0 then nearby else events
  {
  }

  /** A row without a category is never shown under a selected category. */
  lemma NullCategoryNeverMatches(events: seq<EventEntity>, selectedCategory: string,
                                 currentLat: Option<real>, currentLon: Option<real>,
                                 distance: Distance, e: EventEntity)
    requires selectedCategory != AllCategories && e.category.None?
    ensures e !in DisplayedEvents(events, selectedCategory, currentLat, currentLon, distance)
  {
    var r := DisplayedEvents(events, selectedCategory, currentLat, currentLon, distance);
    if e in r {
      SubsequenceMembers(r, events, e);
      assert false;
    }
  }

  /**
   * A near row of another category hides a far row of the selected one: the
   * list can come out empty although a row of that category exists.
   */
  lemma NearbyCanHideMatches(base: EventEntity)
    ensures var d: Distance := (a, b, c, e) => if c == 0.0 then 1.0 else 20.0;
      var near := base.(category := Some("Sport"), latitude := Some(0.0), longitude := Some(0.0));
      var far := base.(category := Some("Musique"), latitude := Some(1.0), longitude := Some(1.0));
      DisplayedEvents([near, far], "Musique", Some(0.0), Some(0.0), d) == []
  {
    var d: Distance := (a, b, c, e) => if c == 0.0 then 1.0 else 20.0;
    var near := base.(category := Some("Sport"), latitude := Some(0.0), longitude := Some(0.0));
    var far := base.(category := Some("Musique"), latitude := Some(1.0), longitude := Some(1.0));
    var events := [near, far];
    var nearby := NearbyEvents(events, Some(0.0), Some(0.0), d);
    assert nearby == [near] by {
      assert events[1..] == [far];
    }
    var r := DisplayedEvents(events, "Musique", Some(0.0), Some(0.0), d);
    assert r == Filter(nearby, e => HasCategory(e, "Musique"));
    assert nearby[1..] == [];
  }

  /**
   * Three rows: A of "Musique" 2 km away, B of "Sport" 20 km away, C of
   * "Musique" without coordinates. Selecting "Musique" near the origin shows A alone.
   */
  lemma MusicNearOrigin(base: EventEntity)
    ensures var d: Distance := (a, b, c, e) => if c == 2.0 then 2.0 else 20.0;
      var evA := base.(id := 1, category := Some("Musique"), latitude := Some(2.0), longitude := Some(0.0));
      var evB := base.(id := 2, category := Some("Sport"), latitude := Some(20.0), longitude := Some(0.0));
      var evC := base.(id := 3, category := Some("Musique"), latitude := None, longitude := None);
      DisplayedEvents([evA, evB, evC], "Musique", Some(0.0), Some(0.0), d) == [evA]
  {
    var d: Distance := (a, b, c, e) => if c == 2.0 then 2.0 else 20.0;
    var evA := base.(id := 1, category := Some("Musique"), latitude := Some(2.0), longitude := Some(0.0));
    var evB := base.(id := 2, category := Some("Sport"), latitude := Some(20.0), longitude := Some(0.0));
    var evC := base.(id := 3, category := Some("Musique"), latitude := None, longitude := None);
    var events := [evA, evB, evC];
    assert events[1..] == [evB, evC] && events[1..][1..] == [evC];
    var nearby := NearbyEvents(events, Some(0.0), Some(0.0), d);
    assert nearby == [evA];
    assert nearby[1..] == [];
  }

  /** With no position and the filter off, the list is shown unchanged. */
  lemma NoPositionNoFilterIsIdentity(events: seq<EventEntity>, distance: Distance)
    ensures DisplayedEvents(events, AllCategories, None, None, distance) == events
  {
  }

  /* ---------- the screen's store calls ---------- */

  /**
   * `onEventCreated = { eventDao.insertEvent(it) }`: a valid press adds one row
   * under a fresh id, carrying the form's fields, and keeps every other row.
   */
  lemma CreateThenInsert(t: Dao.Table, s: CreateForm.FormState)
    requires Dao.Valid(t) && CreateForm.Submit(s).created.Some?
    ensures var e := CreateForm.Submit(s).created.value;
      var k := Dao.AssignedId(t, e);
      var t' := Dao.InsertEvent(t, e);
      && k !in t.rows
      && t'.rows.Keys == t.rows.Keys + {k}
      && t'.rows[k].title == s.title && t'.rows[k].date == s.dateText
      && t'.rows[k].category == Some(s.selectedCategory)
      && !t'.rows[k].isParticipating
      && (forall j | j in t.rows :: t'.rows[j] == t.rows[j])
  {
  }

  /** The delete action removes the shown row and nothing else. */
  lemma DeleteShownRow(t: Dao.Table, e: EventEntity)
    requires Dao.Valid(t) && e.id in t.rows && t.rows[e.id] == e
    ensures var t' := Dao.DeleteEventById(t, e.id);
      && e.id !in t'.rows
      && |t'.rows| == |t.rows| - 1
      && (forall j | j in t.rows && j != e.id :: j in t'.rows && t'.rows[j] == t.rows[j])
  {
    assert Dao.DeleteEventById(t, e.id).rows.Keys == t.rows.Keys - {e.id};
  }
}
