/** POST /places_search as a function of the store and the request body: a state stage, a
    city stage, an amenity filter and a projection, each as the route computes it. */
module PlaceSearch {
  import opened Json
  import opened Models
  import opened Storage
  import opened Http

  /** `for city in cs: for place in city.places`, city by city. */
  function PlacesOfCities(s: Store, cs: seq<Entity>): seq<Entity> {
    if cs == [] then []
    else PlacesOfCities(s, cs[..|cs| - 1]) + s.PlacesOf(cs[|cs| - 1].id)
  }

  /** The places one state id contributes: those of every city of the State, nothing for an
      id that names no State. */
  function StatePlaces(s: Store, v: Value): seq<Entity> {
    match s.Lookup(State, v)
    case None => []
    case Some(state) => PlacesOfCities(s, s.CitiesOf(state.id))
  }

  /** The concatenation of `parts`, in order. */
  function Flatten(parts: seq<seq<Entity>>): seq<Entity> {
    if parts == [] then []
    else Flatten(parts[..|parts| - 1]) + parts[|parts| - 1]
  }

  /** `[f(x) for x in xs]` */
  function MapSeq<A, B>(f: A -> B, xs: seq<A>): (ys: seq<B>)
    ensures |ys| == |xs|
    ensures forall i {:trigger ys[i]} :: 0 <= i < |xs| ==> ys[i] == f(xs[i])
  {
    seq(|xs|, i requires 0 <= i < |xs| => f(xs[i]))
  }

  /** `StatePlaces` for a fixed store, as a value. */
  function StatePlacesIn(s: Store): Value -> seq<Entity> {
    v => StatePlaces(s, v)
  }

  /** What each listed state id contributes, in list order. */
  function StateParts(s: Store, ids: seq<Value>): (parts: seq<seq<Entity>>)
    ensures |parts| == |ids|
    ensures forall i {:trigger parts[i]} :: 0 <= i < |ids| ==> parts[i] == StatePlaces(s, ids[i])
  {
    MapSeq(StatePlacesIn(s), ids)
  }

  /** The state stage: the places of every listed state id, appended in order, duplicates
      included. */
  function StateStage(s: Store, ids: seq<Value>): seq<Entity> {
    Flatten(StateParts(s, ids))
  }

  /** The places one city id contributes: nothing for an id that names no City. */
  function CityPlaces(s: Store, v: Value): seq<Entity> {
    match s.Lookup(City, v)
    case None => []
    case Some(city) => s.PlacesOf(city.id)
  }

  /** `for place in ps: if place not in acc: acc.append(place)` */
  function AppendNew(acc: seq<Entity>, ps: seq<Entity>): seq<Entity> {
    if ps == [] then acc
    else
      var r := AppendNew(acc, ps[..|ps| - 1]);
      if ps[|ps| - 1] in r then r else r + [ps[|ps| - 1]]
  }

  /** The city stage: the places of every listed city id appended to `acc`, skipping those
      already there. */
  function CityStage(s: Store, ids: seq<Value>, acc: seq<Entity>): seq<Entity> {
    if ids == [] then acc
    else AppendNew(CityStage(s, ids[..|ids| - 1], acc), CityPlaces(s, ids[|ids| - 1]))
  }

  /** `[storage.get(Amenity, a_id) for a_id in ids]` */
  function Lookups(s: Store, ids: seq<Value>): (ams: seq<Option<Entity>>)
    ensures |ams| == |ids|
    ensures forall i :: 0 <= i < |ids| ==> ams[i] == s.Lookup(Amenity, ids[i])
  {
    seq(|ids|, i requires 0 <= i < |ids| => s.Lookup(Amenity, ids[i]))
  }

  /** `all([am in place.amenities for am in ams])`: an unknown amenity (None) is in no list. */
  predicate HasAll(s: Store, p: Entity, ams: seq<Option<Entity>>) {
    forall i :: 0 <= i < |ams| ==> ams[i].Some? && ams[i].value in s.AmenitiesOf(p)
  }

  /** The amenity stage: the candidates that link every requested amenity, in order. */
  function AmenityStage(s: Store, cands: seq<Entity>, ams: seq<Option<Entity>>): seq<Entity> {
    if cands == [] then []
    else
      AmenityStage(s, cands[..|cands| - 1], ams)
      + (if HasAll(s, cands[|cands| - 1], ams) then [cands[|cands| - 1]] else [])
  }

  /** The record of a found place: its dictionary without `amenities`. */
  function Projected(p: Entity): (d: Attrs)
    ensures "amenities" !in d
    ensures "id" in d && d["id"] == Str(p.id)
    ensures "__class__" in d && d["__class__"] == Str(KindName(p.kind))
    ensures forall k :: k in p.attrs && k != "id" && k != "__class__" && k != "amenities" ==> k in d && d[k] == p.attrs[k]
    ensures forall k :: k in d ==> k in p.attrs || k == "id" || k == "__class__"
  {
    ToDict(p) - {"amenities"}
  }

  function Project(ps: seq<Entity>): (ds: seq<Attrs>)
    ensures |ds| == |ps|
    ensures forall i :: 0 <= i < |ps| ==> ds[i] == Projected(ps[i])
  {
    seq(|ps|, i requires 0 <= i < |ps| => Projected(ps[i]))
  }

  /** The ids a criterion lists: none when it is falsy (the stage is skipped), None when it
      is truthy but cannot be iterated (the route fails with a TypeError). */
  function Criterion(v: Value): (r: Option<seq<Value>>)
    ensures !Truthy(v) ==> r == Some([])
    ensures Truthy(v) ==> (r.Some? <==> v.Arr? || v.Str?)
    ensures Truthy(v) && v.Arr? ==> r == Some(v.items)
    ensures Truthy(v) && v.Str? ==>
      r.Some? && |r.value| == |v.s| && forall i :: 0 <= i < |v.s| ==> r.value[i] == Str([v.s[i]])
  {
    if Truthy(v) then Elements(v) else Some([])
  }

  /** The body asks for nothing: it is empty, or none of its three criteria is truthy. */
  predicate NoCriteria(data: Attrs) {
    data == map[]
    || (!Truthy(Field(data, "states")) && !Truthy(Field(data, "cities")) && !Truthy(Field(data, "amenities")))
  }

  /** Some truthy criterion cannot be iterated. */
  predicate Malformed(data: Attrs) {
    Criterion(Field(data, "states")).None? || Criterion(Field(data, "cities")).None?
    || Criterion(Field(data, "amenities")).None?
  }

  /** The list the location stages build. */
  function Located(s: Store, data: Attrs): seq<Entity>
    requires !Malformed(data)
  {
    CityStage(s, Criterion(Field(data, "cities")).value, StateStage(s, Criterion(Field(data, "states")).value))
  }

  /** What the amenity stage filters: the located places, or every Place when the location
      stages found nothing. */
  function Candidates(s: Store, located: seq<Entity>): seq<Entity> {
    if located == [] then s.Values(Some(Place)) else located
  }

  /** The places a well-formed search with criteria finds. */
  function Found(s: Store, data: Attrs): seq<Entity>
    requires !Malformed(data)
  {
    var amenities := Field(data, "amenities");
    if Truthy(amenities) then AmenityStage(s, Candidates(s, Located(s, data)), Lookups(s, Criterion(amenities).value))
    else Located(s, data)
  }

  /** The amenity stage reaches its `storage.all(Place)` fallback: `amenities` is truthy and
      the location stages found nothing. */
  predicate FallsBack(s: Store, data: Attrs)
    requires !Malformed(data)
  {
    Truthy(Field(data, "amenities")) && Located(s, data) == []
  }

  /** The route raises: some truthy criterion cannot be iterated, or the amenity stage falls
      back to every Place. The import of `Place` in the no-criteria branch makes the name
      local to the whole route, so in the fallback it is unbound (UnboundLocalError). */
  predicate Fails(s: Store, data: Attrs) {
    Malformed(data) || FallsBack(s, data)
  }

  /** POST /places_search, as the route is written. */
  function Search(s: Store, body: Body): (r: Response)
    ensures r.BadRequest? <==> body.None?
    ensures r.BadRequest? ==> r.message == NotAJson
    ensures r.ServerError? <==> body.Some? && !NoCriteria(body.value) && Fails(s, body.value)
    ensures r.Ok? || r.BadRequest? || r.ServerError?
    ensures r.Ok? ==> r.payload.Records?
  {
    match body
    case None => BadRequest(NotAJson)
    case Some(data) =>
      if NoCriteria(data) then Ok(Records(Dicts(s.Values(Some(Place)))))
      else if Fails(s, data) then ServerError
      else Ok(Records(Project(Found(s, data))))
  }

  /** POST /places_search as evidently intended: when the location stages find nothing, the
      amenity filter runs over every stored Place instead of failing. */
  function SearchIntended(s: Store, body: Body): (r: Response)
    ensures r.BadRequest? <==> body.None?
    ensures r.BadRequest? ==> r.message == NotAJson
    ensures r.ServerError? <==> body.Some? && !NoCriteria(body.value) && Malformed(body.value)
    ensures r.Ok? || r.BadRequest? || r.ServerError?
    ensures r.Ok? ==> r.payload.Records?
  {
    match body
    case None => BadRequest(NotAJson)
    case Some(data) =>
      if NoCriteria(data) then Ok(Records(Dicts(s.Values(Some(Place)))))
      else if Malformed(data) then ServerError
      else Ok(Records(Project(Found(s, data))))
  }
}
