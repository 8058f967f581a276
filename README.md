# AirBnB clone, version 3: the REST views as verified store transitions

This project models the request-handling layer of the AirBnB clone's REST API. The API
serves a property-rental catalog of States, Cities, Users, Places, Reviews and Amenities.
Each route of `api/v1/views` is modelled as an operation on an object store. The inputs are
the path ids and the parsed JSON body. The result is a response (status and payload) and the
new store contents.

The object store is modelled as the routes and the storage tests use it. It is a dictionary
from `"<Class>.<id>"` to object, enumerated in insertion order (`Storage.Store`). It has
`new`, `get`, `all`, `count` and `delete`. It also has the derived relations `state.cities`,
`city.places`, `place.reviews` and `place.amenities`. The storage object shared by the
handlers is a class (`Engine.FileStorage`) whose fields hold the live objects and the
backing document. Its `new`, `delete`, `save` and `reload` are specified by the pure
functions `Store.Put` and `Store.Remove`.

Layout:

- `json.dfy`: JSON values, Python truthiness, iteration over a criterion, and the `not data_body` test.
- `models.dfy`: the six kinds, storage keys, and the dictionary form of an object.
- `storage.dfy`: the store and the facts the storage tests pin down, with the invariant its updates keep.
- `file_storage.dfy`: the shared storage object.
- `http.dfy`: responses, error messages, and field assignment from a body.
- `listing.dfy`: the list comprehensions of the GET routes.
- `states.dfy`, `cities.dfy`, `users.dfy`, `amenities.dfy`, `places_reviews.dfy`, `places.dfy` and `places_amenities.dfy`: one module per view file. Each handler that changes the store is a method that `modifies` the storage object. Each GET handler is a function that `reads` it.
- `search_spec.dfy`: POST /places_search as a function of the store and the body.
- `places_search.dfy`: the route as its loops run it, proved equal to that function.
- `search_facts.dfy`: what the search promises, proved about the function.

The search route of `api/v1/views/places.py` has quirks that the model keeps. The state
stage appends every place of every listed State, so a State listed twice, or a place reached
through two States, appears twice. Only the city stage skips places already listed. An
amenity id that names no Amenity is looked up to `None`, and then no place qualifies. When
`amenities` is given and the location stages found nothing, the route fails with a server
error; it never reaches the filter over every Place (see "## Findings").
`PlaceSearch.Search` and `PlacesSearchView.PlacesSearch` model the route as written.
`PlaceSearch.SearchIntended` models it with that fallback.

## Model

| member | source | states |
|---|---|---|
| Models.KeyOfParts | tests/test_models/test_engine/test_file_storage.py:94-97 | the storage key is the class name, a dot and the id, and the id can be read back from it |
| Models.KeyOfInjective | tests/test_models/test_engine/test_file_storage.py:94-97 | two objects share a key only when they have the same class and the same id |
| Models.ToDict | api/v1/views/states.py:16 | an object's record holds its `id` and its class name, keeps every other attribute, and holds nothing else |
| Storage.Store.Get | tests/test_models/test_engine/test_db_storage.py:107-110 | `get` finds an object exactly when one is stored under the class and id, and it is a stored object |
| Storage.Store.Put | tests/test_models/test_engine/test_file_storage.py:94-97 | after `new(obj)` the object is stored under `Class.id`, and every other key keeps its object |
| Storage.Store.Remove | tests/test_models/test_engine/test_db_storage.py:111-115 | after `delete` the object is gone; deleting an absent object changes nothing; only the deleted key disappears, and a deleted Amenity is dropped from every Place's links |
| StorageFacts.CountIsLenAll | tests/test_models/test_engine/test_file_storage.py:153-158 | `count(cls)` equals `len(all(cls))`, with or without a class, and the number of enumerated values |
| StorageFacts.CountAllIsSize | tests/test_models/test_engine/test_db_storage.py:459-463 | `count()` without a class is the number of stored objects |
| StorageFacts.GetReturnsRequested | tests/test_models/test_engine/test_db_storage.py:447-451 | `get(cls, id)` answers with an object of that class and that id |
| StorageFacts.GetAgreesWithAll | tests/test_models/test_engine/test_db_storage.py:436-445 | `get(cls, e.id)` finds `e` exactly when `e` is among the values of `all(cls)` |
| StorageFacts.ChildrenAreReferrers | api/v1/views/cities.py:23 | `state.cities`, `city.places` and `place.reviews` hold exactly the stored children whose foreign key names the parent |
| StorageFacts.LinkedInOrder | api/v1/views/places_amenities.py:29 | when every link names a stored Amenity, `place.amenities` lists one Amenity per link, in link order |
| StorageFacts.LinkedIffListed | api/v1/views/places_amenities.py:88 | a stored Amenity is in `place.amenities` exactly when its id is in the Place's links |
| StorageFacts.RemovedAmenityIsUnlinked | api/v1/views/places_amenities.py:58-59 | after an Amenity is deleted, no Place links it |
| StorageFacts.CountAfterPut | tests/test_models/test_engine/test_db_storage.py:453-457 | `new` raises the count of the object's own class by one when the key is new; every other count, and every count on a replacement, is unchanged |
| StorageFacts.CountAfterRemove | tests/test_models/test_engine/test_db_storage.py:111-115 | `delete` lowers the count of the deleted object's class by one and leaves the other counts unchanged |
| StorageFacts.PutKeepsValid | tests/test_models/test_engine/test_file_storage.py:85-98 | storing an object keeps every key enumerated once and every object under its own key |
| StorageFacts.RemoveKeepsValid | tests/test_models/test_engine/test_db_storage.py:111-115 | deleting keeps the store well formed, with no Place left linked to a deleted Amenity |
| Engine.FileStorage.New | tests/test_models/test_engine/test_file_storage.py:85-98 | `new` stores the object as `Store.Put` does and leaves the backing document alone |
| Engine.FileStorage.Delete | tests/test_models/test_engine/test_db_storage.py:111-112 | `delete` removes the object as `Store.Remove` does |
| Engine.FileStorage.Save | tests/test_models/test_engine/test_file_storage.py:101-118 | after `save` the backing document holds exactly the live objects |
| Engine.FileStorage.Reload | tests/test_models/test_engine/test_db_storage.py:436-445 | after `reload` the live objects are those last saved |
| Engine.DeleteSaveReload | tests/test_models/test_engine/test_db_storage.py:111-115 | `get` after `delete`, `save` and a reload returns None, and the store is the old store without the object |
| Http.Assigned | api/v1/views/states.py:83 | `obj.f = body.get("f", obj.f)` for each allowed field: a field the body names takes its value, and every other attribute keeps its own |
| Http.AssignedNone | api/v1/views/users.py:87-89 | assigning no field leaves the attributes as they were |
| Http.AssignedOneMore | api/v1/views/users.py:87-89 | each further `obj.f = body.get("f", obj.f)` changes `f` only, and only when the body names it |
| Json.Truthy | api/v1/views/places.py:132-135 | no contract of its own: Python truthiness of `null`, booleans, numbers, strings and lists |
| Json.Elements | api/v1/views/places.py:146 | `for x in v` yields the items of a list and the one-character strings of a string, and fails for every other value |
| Listing.KindDicts | api/v1/views/states.py:16 | `[o.to_dict() for o in all(cls).values()]` has one record per stored object of the class and no other |
| Listing.ChildDicts | api/v1/views/places_reviews.py:23 | `[o.to_dict() for o in parent.children]` holds the records of exactly the stored children of the parent |
| StatesView.AllStates | api/v1/views/states.py:11-17 | 200 with one record per stored State, and nothing else |
| StatesView.GetState | api/v1/views/states.py:20-30 | 404 exactly for an unknown id, otherwise 200 with that State's record |
| StatesView.DeleteState | api/v1/views/states.py:33-45 | 404 with no change for an unknown id; otherwise 200 `{}`, the State is gone, every other object is untouched, and the store is saved |
| StatesView.CreateState | api/v1/views/states.py:48-63 | "Not a JSON" for a missing or empty body, then "Missing name", each with no change; otherwise 201 and the new State is stored and saved |
| StatesView.UpdateState | api/v1/views/states.py:66-85 | 404, then "Not a JSON", each with no change; otherwise only `name` may change, it keeps its value when the body lacks it, and the State is stored and saved |
| CitiesView.AllCities | api/v1/views/cities.py:11-24 | 404 exactly for an unknown State; otherwise the records of exactly the stored Cities whose `state_id` names it |
| CitiesView.GetCity | api/v1/views/cities.py:27-37 | 404 exactly for an unknown id, otherwise 200 with that City's record |
| CitiesView.DeleteCity | api/v1/views/cities.py:40-52 | 404 with no change for an unknown id; otherwise only that City is removed, and the store is saved |
| CitiesView.CreateCity | api/v1/views/cities.py:55-77 | 404 State, then "Not a JSON", then "Missing name", each with no change; otherwise 201, and the new City's `state_id` is the path id whatever the body says |
| CitiesView.UpdateCity | api/v1/views/cities.py:80-99 | 404, then "Not a JSON"; otherwise only `name` may change, and it keeps its value when the body lacks it |
| UsersView.AllUsers | api/v1/views/users.py:11-18 | 200 with one record per stored User, and nothing else |
| UsersView.GetUser | api/v1/views/users.py:21-31 | 404 exactly for an unknown id, otherwise 200 with that User's record |
| UsersView.DeleteUser | api/v1/views/users.py:34-46 | 404 with no change for an unknown id; otherwise only that User is removed, and the store is saved |
| UsersView.CreateUser | api/v1/views/users.py:49-67 | "Not a JSON", then "Missing email", then "Missing password", each with no change; otherwise 201 and the User is stored and saved |
| UsersView.AssignUserFields | api/v1/views/users.py:87-89 | the three assignments in sequence change only `first_name`, `last_name` and `password`, each only when the body names it; `email` keeps its value |
| UsersView.UpdateUser | api/v1/views/users.py:70-94 | 404, then "Not a JSON"; otherwise the User's attributes are those of `AssignUserFields`, so `email` and `id` never change |
| AmenitiesView.AllAmenities | api/v1/views/amenities.py:11-18 | 200 with one record per stored Amenity, and nothing else |
| AmenitiesView.GetAmenity | api/v1/views/amenities.py:21-31 | 404 exactly for an unknown id, otherwise 200 with that Amenity's record |
| AmenitiesView.DeleteAmenity | api/v1/views/amenities.py:34-46 | 404 with no change for an unknown id; otherwise the Amenity is gone and no Place links it any more |
| AmenitiesView.CreateAmenity | api/v1/views/amenities.py:49-65 | "Not a JSON", then "Missing name", each with no change; otherwise 201 and the Amenity is stored and saved |
| AmenitiesView.UpdateAmenityAsWritten | api/v1/views/amenities.py:68-75 | as written, every request fails with a server error and changes nothing |
| AmenitiesView.UpdateAmenity | api/v1/views/amenities.py:68-87 | as intended: 404, then "Not a JSON"; otherwise only `name` may change, and it keeps its value when the body lacks it |
| AmenitiesView.UpdateAmenityDiverges | api/v1/views/amenities.py:74-87 | for a stored Amenity and a body naming a new `name`, the route as written answers 500 where the intended route answers 200 with the new name |
| ReviewsView.AllReviews | api/v1/views/places_reviews.py:11-24 | 404 exactly for an unknown Place; otherwise the records of exactly that Place's stored Reviews |
| ReviewsView.GetReview | api/v1/views/places_reviews.py:27-37 | 404 exactly for an unknown id, otherwise 200 with that Review's record |
| ReviewsView.DeleteReview | api/v1/views/places_reviews.py:40-52 | 404 with no change for an unknown id; otherwise that Review is absent and every other object is untouched |
| ReviewsView.CreateReview | api/v1/views/places_reviews.py:55-88 | 404 Place, "Not a JSON", "Missing user_id", "Missing text", 404 User, in that order and each with no change; otherwise 201, and the Review's `place_id` is the path id whatever the body says |
| ReviewsView.UpdateReview | api/v1/views/places_reviews.py:91-114 | 404, then "Not a JSON"; otherwise only `text` may change, and it keeps its value when the body lacks it |
| PlacesView.AllPlaces | api/v1/views/places.py:11-24 | 404 exactly for an unknown City; otherwise the records of exactly the stored Places whose `city_id` names it |
| PlacesView.GetPlace | api/v1/views/places.py:27-37 | 404 exactly for an unknown id, otherwise 200 with that Place's record |
| PlacesView.DeletePlace | api/v1/views/places.py:40-52 | 404 with no change for an unknown id; otherwise only that Place is removed, and the store is saved |
| PlacesView.CreatePlace | api/v1/views/places.py:55-87 | 404 City, "Not a JSON", "Missing user_id", "Missing name", 404 User, in that order and each with no change; otherwise 201, and the Place's `city_id` is the path id |
| PlacesView.SetAttributesStep | api/v1/views/places.py:107-109 | one turn of the `setattr` loop assigns its key unless the key is protected |
| PlacesView.SetAttributes | api/v1/views/places.py:107-109 | every body key except `id`, `user_id`, `city_id`, `created_at` and `updated_at` is set; those five and every key the body does not name keep their values |
| PlacesView.UpdatePlace | api/v1/views/places.py:90-112 | 404, then "Not a JSON"; otherwise the Place's attributes are those of `SetAttributes`, its links are kept, and no other object changes |
| PlaceAmenitiesView.PlaceAllAmenities | api/v1/views/places_amenities.py:11-30 | 404 exactly for an unknown Place; otherwise one record per link, in the Place's link order |
| PlaceAmenitiesView.DeletePlaceAmenity | api/v1/views/places_amenities.py:33-60 | 404 with no change when the Place or the Amenity is unknown; otherwise the Amenity object itself is deleted, the Amenity count drops by one, and no Place links it |
| PlaceAmenitiesView.LinkPlaceAmenity | api/v1/views/places_amenities.py:63-93 | 404 with no change when either object is unknown; 200 with no change when already linked; otherwise 201, the id is appended at the end of the Place's links, and the store is saved |
| PlaceAmenitiesView.LinkTwice | api/v1/views/places_amenities.py:88-93 | linking the same pair twice answers 200 the second time, and the Place links the Amenity exactly once |
| PlaceAmenitiesView.OccursOnce | api/v1/views/places_amenities.py:88-93 | in a link list without duplicates a linked id occurs exactly once |
| PlaceSearch.Projected | api/v1/views/places.py:173-175 | a found place's record holds its `id` and class name and every other attribute except `amenities`, and nothing else |
| PlaceSearch.Criterion | api/v1/views/places.py:144-146 | a falsy criterion lists nothing (its stage is skipped); a truthy list lists its items, a truthy string its one-character strings, and any other truthy value cannot be iterated |
| PlaceSearch.StateStage | api/v1/views/places.py:144-152 | no contract of its own: `PlaceSearchFacts.StateStageMembers`, `StateStageConcat` and `StateStageRepeats` state what it lists, and `PlacesSearchView.CollectStatePlaces` is proved to build it |
| PlaceSearch.AppendNew | api/v1/views/places.py:158-161 | no contract of its own: `PlaceSearchFacts.AppendNewFacts` and `AppendNewAddsNoDuplicate` state what it appends |
| PlaceSearch.CityStage | api/v1/views/places.py:154-161 | no contract of its own: `PlaceSearchFacts.CityStageMembers`, `CityStageExtends` and `CityStageAddsNoDuplicate` state what it lists, and `PlacesSearchView.CollectCityPlaces` is proved to build it |
| PlaceSearch.HasAll | api/v1/views/places.py:169-170 | no contract of its own: `PlaceSearchFacts.HasAllMeans` states when it holds |
| PlaceSearch.AmenityStage | api/v1/views/places.py:167-170 | no contract of its own: `PlaceSearchFacts.AmenityStageFilters`, `AmenityStageIndices` and `AmenityStageUnknown` state what it keeps |
| PlaceSearch.NoCriteria | api/v1/views/places.py:127-135 | no contract of its own: the body is empty or none of the three criteria is truthy; `PlaceSearchFacts.SearchWithoutCriteria` states the answer then |
| PlaceSearch.Malformed | api/v1/views/places.py:144-167 | no contract of its own: some truthy criterion cannot be iterated; the `ServerError` clauses of `PlaceSearch.Search` and `PlaceSearch.SearchIntended` use it |
| PlaceSearch.Located | api/v1/views/places.py:143-161 | no contract of its own: the list after the state and city stages; `PlaceSearchFacts.FoundStored` states that it holds only stored Places |
| PlaceSearch.FallsBack | api/v1/views/places.py:163-165 | no contract of its own: `amenities` is truthy and nothing was located, where the route reaches `storage.all(Place)` |
| PlaceSearch.Fails | api/v1/views/places.py:133-165 | no contract of its own: a criterion cannot be iterated, or the fallback is reached with `Place` unbound |
| PlaceSearch.Candidates | api/v1/views/places.py:163-165 | no contract of its own: the located list, or every Place when it is empty; only `PlaceSearch.SearchIntended` reaches the second case |
| PlaceSearch.Found | api/v1/views/places.py:143-170 | no contract of its own: `PlaceSearchFacts.FoundStored` states that it holds only stored Places that, with a truthy `amenities`, link every requested amenity |
| PlaceSearch.Search | api/v1/views/places.py:115-178 | as written: 400 "Not a JSON" exactly when there is no JSON body; 500 exactly when criteria are given and some truthy one cannot be iterated or `amenities` is truthy with nothing located; otherwise 200 with a list of records |
| PlaceSearch.SearchIntended | api/v1/views/places.py:163-165 | as intended: the same answers, except that 500 comes only from a criterion that cannot be iterated |
| PlacesSearchView.AppendPlaces | api/v1/views/places.py:151-152 | the loop appends the places of a city to the list, in order |
| PlacesSearchView.AppendCityPlaces | api/v1/views/places.py:149-152 | the loop appends the places of every city of a state, city by city |
| PlacesSearchView.CollectStatePlaces | api/v1/views/places.py:144-152 | the nested loops build exactly the state stage |
| PlacesSearchView.AppendNewPlaces | api/v1/views/places.py:159-161 | the loop appends each place of a city that is not yet listed |
| PlacesSearchView.CollectCityPlaces | api/v1/views/places.py:154-161 | the loops build exactly the city stage |
| PlacesSearchView.ProjectAll | api/v1/views/places.py:172-176 | the loop builds the projected records |
| PlacesSearchView.DictsOf | api/v1/views/places.py:137-141 | the loop builds one record per Place |
| PlacesSearchView.PlacesSearch | api/v1/views/places.py:115-178 | the route answers exactly what `PlaceSearch.Search` specifies for the current store and body, including the 500 when `amenities` is given and nothing is located |
| PlaceSearchFacts.StateStageConcat | api/v1/views/places.py:146-152 | the state stage of two id lists is the two stages concatenated, in state order |
| PlaceSearchFacts.StateStageSingle | api/v1/views/places.py:147-152 | one state id contributes its own places |
| PlaceSearchFacts.StateStageRepeats | api/v1/views/places.py:144-152 | a repeated state id list repeats its places, so the result holds duplicates |
| PlaceSearchFacts.StateStageSkipsUnknown | api/v1/views/places.py:146-148 | a state id naming no State contributes nothing, wherever it stands |
| PlaceSearchFacts.PlacesOfCitiesMembers | api/v1/views/places.py:149-152 | a place is listed for a list of cities exactly when it is a place of one of them |
| PlaceSearchFacts.StatePlaceSound | api/v1/views/places.py:147-152 | each place listed for a State is a stored Place of a stored City of that State |
| PlaceSearchFacts.StatePlaceComplete | api/v1/views/places.py:147-152 | each stored Place of a stored City of the State is listed |
| PlaceSearchFacts.StatePlacesMembers | api/v1/views/places.py:146-152 | a known state id contributes exactly the stored Places of its Cities; an unknown one contributes nothing |
| PlaceSearchFacts.StateStageMembers | api/v1/views/places.py:144-152 | a place is in the state stage exactly when some listed state id contributes it |
| PlaceSearchFacts.AppendNewFacts | api/v1/views/places.py:159-161 | appending new places keeps the list as a prefix and adds exactly the places not yet listed |
| PlaceSearchFacts.AppendNewAddsNoDuplicate | api/v1/views/places.py:159-161 | each place appended differs from every place before it |
| PlaceSearchFacts.CityStageExtends | api/v1/views/places.py:154-161 | the city stage keeps the state stage's list as a prefix and keeps a list without duplicates free of them |
| PlaceSearchFacts.CityStageAddsNoDuplicate | api/v1/views/places.py:154-161 | the city stage never introduces a duplicate, even after a state stage that has some |
| PlaceSearchFacts.CityStageMembers | api/v1/views/places.py:154-161 | a place is in the list after the city stage exactly when it was listed before or some listed city id contributes it |
| PlaceSearchFacts.CityPlacesMembers | api/v1/views/places.py:156-159 | a known city id contributes exactly the stored Places of that City; an unknown one contributes nothing |
| PlaceSearchFacts.AmenityStageIndices | api/v1/views/places.py:168-170 | the places the amenity filter keeps sit at increasing positions of the candidates |
| PlaceSearchFacts.AmenityStageFilters | api/v1/views/places.py:168-170 | a candidate is kept exactly when it has every requested amenity, and the output is an order-preserving subsequence of the candidates |
| PlaceSearchFacts.AmenityStageUnknown | api/v1/views/places.py:167-170 | an amenity id naming no Amenity empties the amenity stage |
| PlaceSearchFacts.HasAllMeans | api/v1/views/places.py:169-170 | a Place has every requested amenity exactly when each requested id is a string naming a stored Amenity that the Place links |
| PlaceSearchFacts.SearchWithoutCriteria | api/v1/views/places.py:132-141 | an empty body, or one without a truthy criterion, answers with one record per stored Place, and nothing else |
| PlaceSearchFacts.SearchUnknownAmenity | api/v1/views/places.py:163-170 | a truthy `amenities` naming some unknown id answers 500 when nothing is located and the empty list otherwise; the intended route always answers the empty list |
| PlaceSearchFacts.SearchFallback | api/v1/views/places.py:163-165 | in the intended route, when the location stages find nothing and `amenities` is truthy, every stored Place that has all requested amenities is answered |
| PlaceSearchFacts.SearchDiverges | api/v1/views/places.py:133-170 | the route as written and the intended route disagree exactly when `amenities` is truthy and nothing is located; there the first answers 500 and the second 200 |
| PlaceSearchFacts.AmenitiesOnlyFails | api/v1/views/places.py:127-165 | a body with a non-empty `amenities` list and no other criterion always answers 500, whatever the store holds |
| PlaceSearchFacts.StateStageStored | api/v1/views/places.py:144-152 | the state stage lists only stored Places |
| PlaceSearchFacts.CityStageStored | api/v1/views/places.py:154-161 | the city stage adds only stored Places |
| PlaceSearchFacts.FoundStored | api/v1/views/places.py:143-170 | every found place is a stored Place, and with a truthy `amenities` has every requested amenity |
| PlaceSearchFacts.SearchFindsStoredPlaces | api/v1/views/places.py:143-178 | a search with well-formed criteria answers 200 exactly when it does not fall back, and then agrees with the intended route; every record the intended route answers is the projection of a stored Place that has every requested amenity |

## Left out

- Flask plumbing is not modelled: route registration, `jsonify`, `abort` and the parsing of request bodies. A body is either absent (the parse failed) or a JSON object. A JSON body that is a list, string or number is not modelled.
- The timestamps and the `to_dict` of the models are not part of this model. `Models.ToDict` stands for it: the attributes plus `id` and `__class__`.
- Id generation is not part of this model. The id of a created object is the parameter `newId`. An `id` in a create body is ignored, and a `newId` already in use replaces the stored object.
- Class-level default attributes and the password hashing of the User model are not part of this model. Attributes are exactly those the handlers set.
- Objects are values, so aliasing is not modelled. Changing an object and calling `save()` is modelled as storing the changed value under the same key.
- Place coordinates and other float attributes are carried as exact decimals. No arithmetic is done on them.
- `setattr` of `amenities` or `__class__` through PUT /places is modelled as an ordinary attribute, which does not touch the Place's links.
- Deleting a State, City, User or Place does not delete its children. The routes do no cascade, and the storage engine that might is not part of this model.
- The storage engines are not part of this model: file JSON I/O, database sessions, lazy relationship loading, and `close`. They are replaced by the abstract store. In it, Place–Amenity links are an ordered list of Amenity ids on the Place, and deleting an Amenity drops it from every list.
- A class given as a string to `all` or `count` is modelled as the same `Kind` as the class itself.
- `api/v1/app.py` (start-up, host and port, teardown) and `api/v1/views/index.py` (the status route) are not modelled.
- CitiesView.AllCities, PlacesView.AllPlaces and ReviewsView.AllReviews: the contracts state which records are listed, not their order or their number. The functions compute the enumeration order.
- StatesView.AllStates, UsersView.AllUsers and AmenitiesView.AllAmenities: the contracts state the number of records and which are listed, not their order.
- PlaceSearchFacts.SearchFallback states one direction, that every qualifying Place is answered. The other direction, that only qualifying Places are answered, is PlaceSearchFacts.SearchFindsStoredPlaces.
- Storage.Store.Lookup: an id taken from a body that is not a string is taken to name no object. The storage engine's `get` with such a key is not part of this model.
- Nested JSON objects are not modelled: `Json.Value` has no object variant. A criterion of `/places_search` that is an object would be iterated by its keys, and a body field holding an object cannot be given.
- A POST /places body that names `amenities` or `__class__` is stored as ordinary attributes. How the Place constructor treats those keys is not part of this model, and the Place's links start empty.

## Findings

| source | as written | input that shows it | evidently intended | confidence | as-written member | corrected member |
|---|---|---|---|---|---|---|
| api/v1/views/amenities.py:74 | `from models.amenity import amenity` imports a name the module does not define, so PUT /amenities/<id> fails with a server error before it reads the store | any PUT /amenities/<id>, e.g. a stored Amenity and the body `{"name": "Wifi"}` | import the class `Amenity`: 404 for an unknown id, "Not a JSON" for an empty body, otherwise only `name` changes and 200 | not executed | AmenitiesView.UpdateAmenityAsWritten | AmenitiesView.UpdateAmenity |
| api/v1/views/places.py:165 | `storage.all(Place)` reads the name `Place`, which the import at line 136 makes local to the whole route but binds only in the no-criteria branch, so the amenity fallback raises UnboundLocalError and answers 500 | any store and the body `{"amenities": ["<id>"]}`, or any body with a truthy `amenities` whose location criteria match nothing | filter every stored Place by the requested amenities and answer 200 with their records | not executed | PlaceSearch.Search | PlaceSearch.SearchIntended |
