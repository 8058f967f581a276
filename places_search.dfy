/** POST /places_search as the route runs it: nested loops that build the list of places,
    then a loop that projects each place to its record. */
module PlacesSearchView {
  import opened Json
  import opened Models
  import opened Storage
  import opened Http
  import opened Engine
  import opened PlaceSearch

  /** `for place in city.places: list_places.append(place)` */
  method AppendPlaces(list0: seq<Entity>, places: seq<Entity>) returns (list: seq<Entity>)
    ensures list == list0 + places
  {
    list := list0;
    var k := 0;
    while k < |places|
      invariant 0 <= k <= |places|
      invariant list == list0 + places[..k]
    {
      list := list + [places[k]];
      assert places[..k + 1] == places[..k] + [places[k]];
      k := k + 1;
    }
    assert places[..k] == places;
  }

  /** `for city in state.cities: for place in city.places: list_places.append(place)` */
  method AppendCityPlaces(s: Store, list0: seq<Entity>, cities: seq<Entity>) returns (list: seq<Entity>)
    ensures list == list0 + PlacesOfCities(s, cities)
  {
    list := list0;
    var j := 0;
    while j < |cities|
      invariant 0 <= j <= |cities|
      invariant list == list0 + PlacesOfCities(s, cities[..j])
    {
      list := AppendPlaces(list, s.PlacesOf(cities[j].id));
      assert cities[..j + 1][..j] == cities[..j];
      j := j + 1;
    }
    assert cities[..j] == cities;
  }

  /** The state stage: every place of every city of every known state id, appended. */
  method CollectStatePlaces(s: Store, ids: seq<Value>) returns (list: seq<Entity>)
    ensures list == StateStage(s, ids)
  {
    ghost var parts := StateParts(s, ids);
    list := [];
    var i := 0;
    while i < |ids|
      invariant 0 <= i <= |ids|
      invariant list == Flatten(parts[..i])
    {
      ghost var prev := list;
      var state := s.Lookup(State, ids[i]);
      if state.Some? {
        list := AppendCityPlaces(s, list, s.CitiesOf(state.value.id));
      }
      assert list == prev + parts[i] by {
        assert parts[i] == StatePlaces(s, ids[i]);
      }
      assert Flatten(parts[..i + 1]) == Flatten(parts[..i]) + parts[i] by {
        assert parts[..i + 1][..i] == parts[..i];
      }
      i := i + 1;
    }
    assert parts[..i] == parts;
  }

  /** `for place in city.places: if place not in list_places: list_places.append(place)` */
  method AppendNewPlaces(list0: seq<Entity>, places: seq<Entity>) returns (list: seq<Entity>)
    ensures list == AppendNew(list0, places)
  {
    list := list0;
    var k := 0;
    while k < |places|
      invariant 0 <= k <= |places|
      invariant list == AppendNew(list0, places[..k])
    {
      assert places[..k + 1][..k] == places[..k];
      if places[k] !in list {
        list := list + [places[k]];
      }
      k := k + 1;
    }
    assert places[..k] == places;
  }

  /** The city stage: the places of every known city id appended to `acc` unless already
      listed. */
  method CollectCityPlaces(s: Store, ids: seq<Value>, acc: seq<Entity>) returns (list: seq<Entity>)
    ensures list == CityStage(s, ids, acc)
  {
    list := acc;
    var i := 0;
    while i < |ids|
      invariant 0 <= i <= |ids|
      invariant list == CityStage(s, ids[..i], acc)
    {
      var city := s.Lookup(City, ids[i]);
      if city.Some? {
        list := AppendNewPlaces(list, s.PlacesOf(city.value.id));
      }
      assert ids[..i + 1][..i] == ids[..i];
      i := i + 1;
    }
    assert ids[..i] == ids;
  }

  /** `for p in list_places: d = p.to_dict(); d.pop('amenities', None); places.append(d)` */
  method ProjectAll(list: seq<Entity>) returns (records: seq<Attrs>)
    ensures records == Project(list)
  {
    records := [];
    var i := 0;
    while i < |list|
      invariant 0 <= i <= |list|
      invariant |records| == i
      invariant forall j :: 0 <= j < i ==> records[j] == Projected(list[j])
    {
      var d := ToDict(list[i]);
      d := d - {"amenities"};
      records := records + [d];
      i := i + 1;
    }
  }

  /** `for place in places: list_places.append(place.to_dict())` */
  method DictsOf(places: seq<Entity>) returns (records: seq<Attrs>)
    ensures records == Dicts(places)
  {
    records := [];
    var i := 0;
    while i < |places|
      invariant 0 <= i <= |places|
      invariant |records| == i
      invariant forall j :: 0 <= j < i ==> records[j] == ToDict(places[j])
    {
      records := records + [ToDict(places[i])];
      i := i + 1;
    }
  }

  /** The route: 400 without a JSON body, every Place when no criterion is given, a server
      error for a criterion that cannot be iterated or when `amenities` is given and the
      location stages found nothing, and otherwise the projected records of the places the
      stages find. */
  method PlacesSearch(st: FileStorage, body: Body) returns (r: Response)
    requires st.Valid()
    ensures r == Search(st.View(), body)
  {
    if body.None? {
      return BadRequest(NotAJson);
    }
    var s := st.View();
    var data := body.value;
    var states := Field(data, "states");
    var cities := Field(data, "cities");
    var amenities := Field(data, "amenities");
    if NoCriteria(data) {
      var records := DictsOf(s.Values(Some(Place)));
      return Ok(Records(records));
    }
    var list: seq<Entity> := [];
    if Truthy(states) {
      var ids := Elements(states);
      if ids.None? {
        return ServerError;
      }
      list := CollectStatePlaces(s, ids.value);
    }
    assert list == StateStage(s, Criterion(states).value);
    if Truthy(cities) {
      var ids := Elements(cities);
      if ids.None? {
        return ServerError;
      }
      list := CollectCityPlaces(s, ids.value, list);
    }
    assert list == CityStage(s, Criterion(cities).value, StateStage(s, Criterion(states).value));
    if Truthy(amenities) {
      var ids := Elements(amenities);
      if ids.None? {
        return ServerError;
      }
      if list == [] {
        // `storage.all(Place)`: the name is unbound here
        return ServerError;
      }
      var ams := Lookups(s, ids.value);
      list := AmenityStage(s, list, ams);
    }
    assert !Malformed(data) && list == Found(s, data);
    var records := ProjectAll(list);
    r := Ok(Records(records));
  }
}
