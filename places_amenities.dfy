/** The `/places/<place_id>/amenities` routes: a Place's links to Amenities. */
module PlaceAmenitiesView {
  import opened Json
  import opened Models
  import opened Storage
  import opened Http
  import opened Engine
  import StorageFacts

  /** GET /places/<place_id>/amenities: 404 for an unknown Place, otherwise one record per
      link of the Place, in link order. */
  function PlaceAllAmenities(st: FileStorage, placeId: Id): (r: Response)
    reads st
    requires st.Valid()
    ensures r.NotFound? <==> st.View().Get(Place, placeId).None?
    ensures r.NotFound? || (r.Ok? && r.payload.Records?)
    ensures r.Ok? ==>
      var ids := st.View().Get(Place, placeId).value.amenityIds;
      && |r.payload.records| == |ids|
      && forall i :: 0 <= i < |ids| ==>
           st.View().Get(Amenity, ids[i]).Some? && r.payload.records[i] == ToDict(st.View().Get(Amenity, ids[i]).value)
  {
    match st.View().Get(Place, placeId)
    case None => NotFound
    case Some(place) =>
      StorageFacts.GetReturnsRequested(st.View(), Place, placeId);
      assert st.View().LinksValid(place) by {
        assert st.View().objects[KeyOf(Place, placeId)] == place;
      }
      StorageFacts.LinkedInOrder(st.View(), place.amenityIds);
      Ok(Records(Dicts(st.View().AmenitiesOf(place))))
  }

  /** DELETE /places/<place_id>/amenities/<amenity_id>: after both existence checks the
      Amenity object itself is deleted, so it disappears from every Place, not only this one. */
  method DeletePlaceAmenity(st: FileStorage, placeId: Id, amenityId: Id) returns (r: Response)
    requires st.Valid()
    modifies st
    ensures st.Valid()
    ensures old(st.View().Get(Place, placeId)).None? ==> r == NotFound && unchanged(st)
    ensures old(st.View().Get(Place, placeId)).Some? && old(st.View().Get(Amenity, amenityId)).None? ==>
      r == NotFound && unchanged(st)
    ensures old(st.View().Get(Place, placeId)).Some? && old(st.View().Get(Amenity, amenityId)).Some? ==>
      && r == Ok(NoContent)
      && st.View() == old(st.View()).Remove(Amenity, amenityId)
      && st.View().Get(Amenity, amenityId).None?
      && st.View().Count(Some(Amenity)) + 1 == old(st.View()).Count(Some(Amenity))
      && (forall key :: key in st.View().objects && st.View().objects[key].kind == Place ==>
            amenityId !in st.View().objects[key].amenityIds)
      && st.file == st.View()
  {
    var place := st.View().Get(Place, placeId);
    if place.None? {
      return NotFound;
    }
    var amenity := st.View().Get(Amenity, amenityId);
    if amenity.None? {
      return NotFound;
    }
    StorageFacts.GetReturnsRequested(st.View(), Amenity, amenityId);
    StorageFacts.RemovedAmenityIsUnlinked(st.View(), amenityId);
    StorageFacts.CountAfterRemove(st.View(), Amenity, amenityId, Some(Amenity));
    st.Delete(amenity.value);
    st.Save();
    r := Ok(NoContent);
  }

  /** POST /places/<place_id>/amenities/<amenity_id>: 404 and no change when either object is
      unknown; 200 and no change when the link exists; otherwise the Amenity's id is appended
      to the Place's links, the store is saved, and the answer is 201. Either success answers
      with the Amenity's record. */
  method LinkPlaceAmenity(st: FileStorage, placeId: Id, amenityId: Id) returns (r: Response)
    requires st.Valid()
    modifies st
    ensures st.Valid()
    ensures old(st.View().Get(Place, placeId)).None? || old(st.View().Get(Amenity, amenityId)).None? ==>
      r == NotFound && unchanged(st)
    ensures old(st.View().Get(Place, placeId)).Some? && old(st.View().Get(Amenity, amenityId)).Some? ==>
      var place := old(st.View().Get(Place, placeId)).value;
      var amenity := old(st.View().Get(Amenity, amenityId)).value;
      && (amenityId in place.amenityIds ==> r == Ok(Record(ToDict(amenity))) && unchanged(st))
      && (amenityId !in place.amenityIds ==>
            && r == Created(Record(ToDict(amenity)))
            && st.View() == old(st.View()).Put(place.(amenityIds := place.amenityIds + [amenityId]))
            && st.file == st.View())
  {
    var place := st.View().Get(Place, placeId);
    if place.None? {
      return NotFound;
    }
    var amenity := st.View().Get(Amenity, amenityId);
    if amenity.None? {
      return NotFound;
    }
    StorageFacts.GetReturnsRequested(st.View(), Place, placeId);
    StorageFacts.GetReturnsRequested(st.View(), Amenity, amenityId);
    StorageFacts.LinkedIffListed(st.View(), place.value, amenity.value);
    if amenity.value in st.View().AmenitiesOf(place.value) {
      return Ok(Record(ToDict(amenity.value)));
    }
    var ids := place.value.amenityIds;
    var linked := place.value.(amenityIds := ids + [amenityId]);
    assert st.View().LinksValid(linked) by {
      assert st.View().LinksValid(place.value) by {
        assert st.View().objects[KeyOf(Place, placeId)] == place.value;
      }
      forall i, j | 0 <= i < j < |linked.amenityIds| ensures linked.amenityIds[i] != linked.amenityIds[j] {
        if j == |ids| {
          assert linked.amenityIds[i] == ids[i];
        } else {
          assert linked.amenityIds[i] == ids[i] && linked.amenityIds[j] == ids[j];
        }
      }
    }
    st.New(linked);
    st.Save();
    r := Created(Record(ToDict(amenity.value)));
  }

  /** Linking the same pair twice: the second request answers 200, and the Place's links hold
      the Amenity exactly once. */
  method LinkTwice(st: FileStorage, placeId: Id, amenityId: Id) returns (first: Response, second: Response)
    requires st.Valid()
    requires st.View().Get(Place, placeId).Some? && st.View().Get(Amenity, amenityId).Some?
    modifies st
    ensures st.Valid()
    ensures first.Status() in {200, 201} && second.Status() == 200
    ensures st.View().Get(Place, placeId).Some?
    ensures var ids := st.View().Get(Place, placeId).value.amenityIds;
      amenityId in ids && multiset(ids)[amenityId] == 1
  {
    first := LinkPlaceAmenity(st, placeId, amenityId);
    assert st.View().Get(Amenity, amenityId).Some?;
    second := LinkPlaceAmenity(st, placeId, amenityId);
    var s := st.View();
    var p := s.Get(Place, placeId).value;
    StorageFacts.GetReturnsRequested(s, Place, placeId);
    assert s.LinksValid(p) by {
      assert s.objects[KeyOf(Place, placeId)] == p;
    }
    OccursOnce(p.amenityIds, amenityId);
  }

  /** In a list without duplicates an element that occurs, occurs once. */
  lemma {:induction false} OccursOnce(xs: seq<Id>, x: Id)
    requires NoDup(xs) && x in xs
    ensures multiset(xs)[x] == 1
  {
    if xs[0] == x {
      assert x !in xs[1..] by {
        forall j | 0 <= j < |xs[1..]| ensures xs[1..][j] != x {
          assert xs[1..][j] == xs[j + 1];
        }
      }
      assert xs == [xs[0]] + xs[1..];
    } else {
      assert NoDup(xs[1..]) by {
        forall i, j | 0 <= i < j < |xs[1..]| ensures xs[1..][i] != xs[1..][j] {
          assert xs[1..][i] == xs[i + 1] && xs[1..][j] == xs[j + 1];
        }
      }
      OccursOnce(xs[1..], x);
      assert xs == [xs[0]] + xs[1..];
    }
  }
}
