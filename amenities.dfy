/** The `/amenities` routes. */
module AmenitiesView {
  import opened Json
  import opened Models
  import opened Storage
  import opened Http
  import opened Engine
  import opened Listing
  import StorageFacts

  /** The fields a PUT may change. */
  const AmenityFields: set<string> := {"name"}

  /** GET /amenities: one record per stored Amenity. */
  function AllAmenities(st: FileStorage): (r: Response)
    reads st
    requires st.Valid()
    ensures r.Ok? && r.payload.Records?
    ensures |r.payload.records| == st.View().Count(Some(Amenity))
    ensures forall e: Entity :: st.View().Get(Amenity, e.id) == Some(e) ==> ToDict(e) in r.payload.records
    ensures forall d :: d in r.payload.records ==> exists e: Entity :: st.View().Get(Amenity, e.id) == Some(e) && d == ToDict(e)
  {
    Ok(Records(KindDicts(st.View(), Amenity)))
  }

  /** GET /amenities/<amenity_id> */
  function GetAmenity(st: FileStorage, amenityId: Id): (r: Response)
    reads st
    requires st.Valid()
    ensures r.NotFound? <==> st.View().Get(Amenity, amenityId).None?
    ensures r.NotFound? || r.Ok?
    ensures r.Ok? ==> exists e: Entity :: e in st.View().Values(Some(Amenity)) && e.id == amenityId && r.payload == Record(ToDict(e))
  {
    match st.View().Get(Amenity, amenityId)
    case None => NotFound
    case Some(amenity) =>
      StorageFacts.GetReturnsRequested(st.View(), Amenity, amenityId);
      StorageFacts.GetAgreesWithAll(st.View(), Amenity);
      Ok(Record(ToDict(amenity)))
  }

  /** DELETE /amenities/<amenity_id>: the Amenity is gone and no Place links it any more;
      every Place keeps its other links and attributes. */
  method DeleteAmenity(st: FileStorage, amenityId: Id) returns (r: Response)
    requires st.Valid()
    modifies st
    ensures st.Valid()
    ensures old(st.View().Get(Amenity, amenityId)).None? ==> r == NotFound && unchanged(st)
    ensures old(st.View().Get(Amenity, amenityId)).Some? ==>
      && r == Ok(NoContent)
      && st.View() == old(st.View()).Remove(Amenity, amenityId)
      && st.View().Get(Amenity, amenityId).None?
      && (forall key :: key in st.View().objects && st.View().objects[key].kind == Place ==>
            amenityId !in st.View().objects[key].amenityIds)
      && st.file == st.View()
  {
    var amenity := st.View().Get(Amenity, amenityId);
    if amenity.None? {
      return NotFound;
    }
    StorageFacts.GetReturnsRequested(st.View(), Amenity, amenityId);
    StorageFacts.RemovedAmenityIsUnlinked(st.View(), amenityId);
    st.Delete(amenity.value);
    st.Save();
    r := Ok(NoContent);
  }

  /** POST /amenities */
  method CreateAmenity(st: FileStorage, body: Body, newId: Id) returns (r: Response)
    requires st.Valid()
    modifies st
    ensures st.Valid()
    ensures NotJson(body) ==> r == BadRequest(NotAJson) && unchanged(st)
    ensures !NotJson(body) && "name" !in body.value ==> r == BadRequest(Missing("name")) && unchanged(st)
    ensures !NotJson(body) && "name" in body.value ==>
      var amenity := Entity(Amenity, newId, body.value, []);
      && r == Created(Record(ToDict(amenity)))
      && st.View() == old(st.View()).Put(amenity)
      && st.file == st.View()
  {
    if NotJson(body) {
      return BadRequest(NotAJson);
    }
    if "name" !in body.value {
      return BadRequest(Missing("name"));
    }
    var amenity := Entity(Amenity, newId, body.value, []);
    st.New(amenity);
    st.Save();
    r := Created(Record(ToDict(amenity)));
  }

  /** PUT /amenities/<amenity_id> as the route is written: its first statement imports a
      name the amenity module does not define, so every request fails with a server error
      before the store is read, whatever the id and the body. */
  method UpdateAmenityAsWritten(st: FileStorage, amenityId: Id, body: Body) returns (r: Response)
    requires st.Valid()
    ensures r == ServerError
  {
    r := ServerError;
  }

  /** PUT /amenities/<amenity_id> as evidently intended, with the class imported under its
      own name: only `name` can change. */
  method UpdateAmenity(st: FileStorage, amenityId: Id, body: Body) returns (r: Response)
    requires st.Valid()
    modifies st
    ensures st.Valid()
    ensures old(st.View().Get(Amenity, amenityId)).None? ==> r == NotFound && unchanged(st)
    ensures old(st.View().Get(Amenity, amenityId)).Some? && NotJson(body) ==> r == BadRequest(NotAJson) && unchanged(st)
    ensures old(st.View().Get(Amenity, amenityId)).Some? && !NotJson(body) ==>
      var amenity := old(st.View().Get(Amenity, amenityId)).value;
      var updated := amenity.(attrs := Assigned(amenity.attrs, body.value, AmenityFields));
      && r == Ok(Record(ToDict(updated)))
      && st.View() == old(st.View()).Put(updated)
      && st.View().Get(Amenity, amenityId) == Some(updated)
      && st.file == st.View()
  {
    var amenity := st.View().Get(Amenity, amenityId);
    if amenity.None? {
      return NotFound;
    }
    if NotJson(body) {
      return BadRequest(NotAJson);
    }
    StorageFacts.GetReturnsRequested(st.View(), Amenity, amenityId);
    var updated := amenity.value.(attrs := Assigned(amenity.value.attrs, body.value, AmenityFields));
    st.New(updated);
    st.Save();
    r := Ok(Record(ToDict(updated)));
  }

  /** The finding, stated on one request: for a stored Amenity and a JSON body naming a new
      `name`, the route as written answers 500 where the intended route answers 200 with the
      new name. */
  method UpdateAmenityDiverges(st: FileStorage, amenityId: Id, name: Value) returns (asWritten: Response, intended: Response)
    requires st.Valid()
    requires st.View().Get(Amenity, amenityId).Some?
    modifies st
    ensures asWritten == ServerError
    ensures intended.Ok? && intended.payload.Record? && "name" in intended.payload.record && intended.payload.record["name"] == name
  {
    var body: Body := Some(map["name" := name]);
    assert "name" in body.value && !NotJson(body);
    asWritten := UpdateAmenityAsWritten(st, amenityId, body);
    intended := UpdateAmenity(st, amenityId, body);
  }
}
