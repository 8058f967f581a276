/** The `/states/<state_id>/cities` and `/cities` routes. */
module CitiesView {
  import opened Json
  import opened Models
  import opened Storage
  import opened Http
  import opened Engine
  import opened Listing
  import StorageFacts

  /** The fields a PUT may change. */
  const CityFields: set<string> := {"name"}

  /** GET /states/<state_id>/cities: 404 for an unknown State, otherwise one record per
      stored City whose `state_id` names it. */
  function AllCities(st: FileStorage, stateId: Id): (r: Response)
    reads st
    requires st.Valid()
    ensures r.NotFound? <==> st.View().Get(State, stateId).None?
    ensures r.NotFound? || (r.Ok? && r.payload.Records?)
    ensures r.Ok? ==> forall e: Entity :: st.View().Get(City, e.id) == Some(e) && RefersTo(e, "state_id", stateId) ==>
      ToDict(e) in r.payload.records
    ensures r.Ok? ==> forall d :: d in r.payload.records ==>
      exists e: Entity :: st.View().Get(City, e.id) == Some(e) && RefersTo(e, "state_id", stateId) && d == ToDict(e)
  {
    match st.View().Get(State, stateId)
    case None => NotFound
    case Some(state) =>
      StorageFacts.GetReturnsRequested(st.View(), State, stateId);
      Ok(Records(ChildDicts(st.View(), City, "state_id", state.id)))
  }

  /** GET /cities/<city_id> */
  function GetCity(st: FileStorage, cityId: Id): (r: Response)
    reads st
    requires st.Valid()
    ensures r.NotFound? <==> st.View().Get(City, cityId).None?
    ensures r.NotFound? || r.Ok?
    ensures r.Ok? ==> exists e: Entity :: e in st.View().Values(Some(City)) && e.id == cityId && r.payload == Record(ToDict(e))
  {
    match st.View().Get(City, cityId)
    case None => NotFound
    case Some(city) =>
      StorageFacts.GetReturnsRequested(st.View(), City, cityId);
      StorageFacts.GetAgreesWithAll(st.View(), City);
      Ok(Record(ToDict(city)))
  }

  /** DELETE /cities/<city_id>: only that City is removed. */
  method DeleteCity(st: FileStorage, cityId: Id) returns (r: Response)
    requires st.Valid()
    modifies st
    ensures st.Valid()
    ensures old(st.View().Get(City, cityId)).None? ==> r == NotFound && unchanged(st)
    ensures old(st.View().Get(City, cityId)).Some? ==>
      && r == Ok(NoContent)
      && st.View() == old(st.View()).Remove(City, cityId)
      && st.View().Get(City, cityId).None?
      && SameExcept(old(st.View()), st.View(), KeyOf(City, cityId))
      && st.file == st.View()
  {
    var city := st.View().Get(City, cityId);
    if city.None? {
      return NotFound;
    }
    StorageFacts.GetReturnsRequested(st.View(), City, cityId);
    st.Delete(city.value);
    st.Save();
    r := Ok(NoContent);
  }

  /** POST /states/<state_id>/cities: the new City's `state_id` is the State of the path,
      whatever the body says. */
  method CreateCity(st: FileStorage, stateId: Id, body: Body, newId: Id) returns (r: Response)
    requires st.Valid()
    modifies st
    ensures st.Valid()
    ensures old(st.View().Get(State, stateId)).None? ==> r == NotFound && unchanged(st)
    ensures old(st.View().Get(State, stateId)).Some? && NotJson(body) ==> r == BadRequest(NotAJson) && unchanged(st)
    ensures old(st.View().Get(State, stateId)).Some? && !NotJson(body) && "name" !in body.value ==>
      r == BadRequest(Missing("name")) && unchanged(st)
    ensures old(st.View().Get(State, stateId)).Some? && !NotJson(body) && "name" in body.value ==>
      var city := Entity(City, newId, body.value["state_id" := Str(stateId)], []);
      && r == Created(Record(ToDict(city)))
      && RefersTo(city, "state_id", stateId)
      && st.View() == old(st.View()).Put(city)
      && st.file == st.View()
  {
    var state := st.View().Get(State, stateId);
    if state.None? {
      return NotFound;
    }
    if NotJson(body) {
      return BadRequest(NotAJson);
    }
    if "name" !in body.value {
      return BadRequest(Missing("name"));
    }
    StorageFacts.GetReturnsRequested(st.View(), State, stateId);
    var city := Entity(City, newId, body.value["state_id" := Str(state.value.id)], []);
    st.New(city);
    st.Save();
    r := Created(Record(ToDict(city)));
  }

  /** PUT /cities/<city_id>: only `name` can change. */
  method UpdateCity(st: FileStorage, cityId: Id, body: Body) returns (r: Response)
    requires st.Valid()
    modifies st
    ensures st.Valid()
    ensures old(st.View().Get(City, cityId)).None? ==> r == NotFound && unchanged(st)
    ensures old(st.View().Get(City, cityId)).Some? && NotJson(body) ==> r == BadRequest(NotAJson) && unchanged(st)
    ensures old(st.View().Get(City, cityId)).Some? && !NotJson(body) ==>
      var city := old(st.View().Get(City, cityId)).value;
      var updated := city.(attrs := Assigned(city.attrs, body.value, CityFields));
      && r == Ok(Record(ToDict(updated)))
      && st.View() == old(st.View()).Put(updated)
      && st.View().Get(City, cityId) == Some(updated)
      && st.file == st.View()
  {
    var city := st.View().Get(City, cityId);
    if city.None? {
      return NotFound;
    }
    if NotJson(body) {
      return BadRequest(NotAJson);
    }
    StorageFacts.GetReturnsRequested(st.View(), City, cityId);
    var updated := city.value.(attrs := Assigned(city.value.attrs, body.value, CityFields));
    st.New(updated);
    st.Save();
    r := Ok(Record(ToDict(updated)));
  }
}
