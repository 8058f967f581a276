/** The `/cities/<city_id>/places` and `/places` routes (the search route is in its own files). */
module PlacesView {
  import opened Json
  import opened Models
  import opened Storage
  import opened Http
  import opened Engine
  import opened Listing
  import StorageFacts

  /** The body keys a PUT never copies onto a Place. */
  const PlaceProtected: set<string> := {"id", "user_id", "city_id", "created_at", "updated_at"}

  /** GET /cities/<city_id>/places: 404 for an unknown City, otherwise one record per stored
      Place whose `city_id` names it. */
  function AllPlaces(st: FileStorage, cityId: Id): (r: Response)
    reads st
    requires st.Valid()
    ensures r.NotFound? <==> st.View().Get(City, cityId).None?
    ensures r.NotFound? || (r.Ok? && r.payload.Records?)
    ensures r.Ok? ==> forall e: Entity :: st.View().Get(Place, e.id) == Some(e) && RefersTo(e, "city_id", cityId) ==>
      ToDict(e) in r.payload.records
    ensures r.Ok? ==> forall d :: d in r.payload.records ==>
      exists e: Entity :: st.View().Get(Place, e.id) == Some(e) && RefersTo(e, "city_id", cityId) && d == ToDict(e)
  {
    match st.View().Get(City, cityId)
    case None => NotFound
    case Some(city) =>
      StorageFacts.GetReturnsRequested(st.View(), City, cityId);
      Ok(Records(ChildDicts(st.View(), Place, "city_id", city.id)))
  }

  /** GET /places/<place_id> */
  function GetPlace(st: FileStorage, placeId: Id): (r: Response)
    reads st
    requires st.Valid()
    ensures r.NotFound? <==> st.View().Get(Place, placeId).None?
    ensures r.NotFound? || r.Ok?
    ensures r.Ok? ==> exists e: Entity :: e in st.View().Values(Some(Place)) && e.id == placeId && r.payload == Record(ToDict(e))
  {
    match st.View().Get(Place, placeId)
    case None => NotFound
    case Some(place) =>
      StorageFacts.GetReturnsRequested(st.View(), Place, placeId);
      StorageFacts.GetAgreesWithAll(st.View(), Place);
      Ok(Record(ToDict(place)))
  }

  /** DELETE /places/<place_id>: only that Place is removed. */
  method DeletePlace(st: FileStorage, placeId: Id) returns (r: Response)
    requires st.Valid()
    modifies st
    ensures st.Valid()
    ensures old(st.View().Get(Place, placeId)).None? ==> r == NotFound && unchanged(st)
    ensures old(st.View().Get(Place, placeId)).Some? ==>
      && r == Ok(NoContent)
      && st.View() == old(st.View()).Remove(Place, placeId)
      && st.View().Get(Place, placeId).None?
      && SameExcept(old(st.View()), st.View(), KeyOf(Place, placeId))
      && st.file == st.View()
  {
    var place := st.View().Get(Place, placeId);
    if place.None? {
      return NotFound;
    }
    StorageFacts.GetReturnsRequested(st.View(), Place, placeId);
    st.Delete(place.value);
    st.Save();
    r := Ok(NoContent);
  }

  /** POST /cities/<city_id>/places: the checks run in the order 404 City, "Not a JSON",
      "Missing user_id", "Missing name", 404 User; the new Place's `city_id` is the path id,
      whatever the body says, and it links no Amenity. */
  method CreatePlace(st: FileStorage, cityId: Id, body: Body, newId: Id) returns (r: Response)
    requires st.Valid()
    modifies st
    ensures st.Valid()
    ensures old(st.View().Get(City, cityId)).None? ==> r == NotFound && unchanged(st)
    ensures old(st.View().Get(City, cityId)).Some? && NotJson(body) ==> r == BadRequest(NotAJson) && unchanged(st)
    ensures old(st.View().Get(City, cityId)).Some? && !NotJson(body) && "user_id" !in body.value ==>
      r == BadRequest(Missing("user_id")) && unchanged(st)
    ensures old(st.View().Get(City, cityId)).Some? && !NotJson(body) && "user_id" in body.value && "name" !in body.value ==>
      r == BadRequest(Missing("name")) && unchanged(st)
    ensures (old(st.View().Get(City, cityId)).Some? && !NotJson(body) && "user_id" in body.value && "name" in body.value &&
             old(st.View().Lookup(User, body.value["user_id"])).None?) ==> r == NotFound && unchanged(st)
    ensures (old(st.View().Get(City, cityId)).Some? && !NotJson(body) && "user_id" in body.value && "name" in body.value &&
             old(st.View().Lookup(User, body.value["user_id"])).Some?) ==>
      var place := Entity(Place, newId, body.value["city_id" := Str(cityId)], []);
      && r == Created(Record(ToDict(place)))
      && RefersTo(place, "city_id", cityId)
      && st.View() == old(st.View()).Put(place)
      && st.file == st.View()
  {
    var city := st.View().Get(City, cityId);
    if city.None? {
      return NotFound;
    }
    if NotJson(body) {
      return BadRequest(NotAJson);
    }
    if "user_id" !in body.value {
      return BadRequest(Missing("user_id"));
    }
    if "name" !in body.value {
      return BadRequest(Missing("name"));
    }
    var data := body.value["city_id" := Str(cityId)];
    var user := st.View().Lookup(User, data["user_id"]);
    if user.None? {
      return NotFound;
    }
    var place := Entity(Place, newId, data, []);
    st.New(place);
    st.Save();
    r := Created(Record(ToDict(place)));
  }

  /** One turn of the loop in `SetAttributes`: handling key `k` assigns it unless it is protected. */
  lemma SetAttributesStep(attrs: Attrs, body: Attrs, protected: set<string>, todo: set<string>, k: string)
    requires k in todo && todo <= body.Keys
    ensures Assigned(attrs, body, (body.Keys - (todo - {k})) - protected) ==
      if k in protected then Assigned(attrs, body, (body.Keys - todo) - protected)
      else Assigned(attrs, body, (body.Keys - todo) - protected)[k := body[k]]
  {
    var done := (body.Keys - todo) - protected;
    if k in protected {
      assert (body.Keys - (todo - {k})) - protected == done;
    } else {
      assert (body.Keys - (todo - {k})) - protected == done + {k};
      AssignedOneMore(attrs, body, done, k);
    }
  }

  /** The `setattr` loop of PUT /places: every body key outside `protected` is copied onto
      the attributes, one key at a time; the protected attributes keep their values. */
  method SetAttributes(attrs: Attrs, body: Attrs, protected: set<string>) returns (r: Attrs)
    ensures r == Assigned(attrs, body, body.Keys - protected)
    ensures forall k :: k in protected ==> (k in r <==> k in attrs) && (k in attrs ==> r[k] == attrs[k])
  {
    r := attrs;
    var todo := body.Keys;
    AssignedNone(attrs, body);
    assert (body.Keys - todo) - protected == {};
    while todo != {}
      invariant todo <= body.Keys
      invariant r == Assigned(attrs, body, (body.Keys - todo) - protected)
      decreases |todo|
    {
      var k :| k in todo;
      SetAttributesStep(attrs, body, protected, todo, k);
      if k !in protected {
        r := r[k := body[k]];
      }
      todo := todo - {k};
    }
    assert body.Keys - todo == body.Keys;
  }

  /** PUT /places/<place_id>: every body key except `id`, `user_id`, `city_id`, `created_at`
      and `updated_at` is set; those five, every attribute the body does not name, and the
      Place's amenity links keep their values. */
  method UpdatePlace(st: FileStorage, placeId: Id, body: Body) returns (r: Response)
    requires st.Valid()
    modifies st
    ensures st.Valid()
    ensures old(st.View().Get(Place, placeId)).None? ==> r == NotFound && unchanged(st)
    ensures old(st.View().Get(Place, placeId)).Some? && NotJson(body) ==> r == BadRequest(NotAJson) && unchanged(st)
    ensures old(st.View().Get(Place, placeId)).Some? && !NotJson(body) ==>
      var place := old(st.View().Get(Place, placeId)).value;
      var updated := place.(attrs := Assigned(place.attrs, body.value, body.value.Keys - PlaceProtected));
      && r == Ok(Record(ToDict(updated)))
      && st.View() == old(st.View()).Put(updated)
      && SameExcept(old(st.View()), st.View(), KeyOf(Place, placeId))
      && st.file == st.View()
  {
    var place := st.View().Get(Place, placeId);
    if place.None? {
      return NotFound;
    }
    if NotJson(body) {
      return BadRequest(NotAJson);
    }
    StorageFacts.GetReturnsRequested(st.View(), Place, placeId);
    assert st.View().LinksValid(place.value) by {
      assert st.View().objects[KeyOf(Place, placeId)] == place.value;
    }
    var attrs := SetAttributes(place.value.attrs, body.value, PlaceProtected);
    var updated := place.value.(attrs := attrs);
    st.New(updated);
    st.Save();
    r := Ok(Record(ToDict(updated)));
  }
}
