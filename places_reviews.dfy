/** The `/places/<place_id>/reviews` and `/reviews` routes. */
module ReviewsView {
  import opened Json
  import opened Models
  import opened Storage
  import opened Http
  import opened Engine
  import opened Listing
  import StorageFacts

  /** The fields a PUT may change. */
  const ReviewFields: set<string> := {"text"}

  /** GET /places/<place_id>/reviews: 404 for an unknown Place, otherwise one record per
      stored Review whose `place_id` names it. */
  function AllReviews(st: FileStorage, placeId: Id): (r: Response)
    reads st
    requires st.Valid()
    ensures r.NotFound? <==> st.View().Get(Place, placeId).None?
    ensures r.NotFound? || (r.Ok? && r.payload.Records?)
    ensures r.Ok? ==> forall e: Entity :: st.View().Get(Review, e.id) == Some(e) && RefersTo(e, "place_id", placeId) ==>
      ToDict(e) in r.payload.records
    ensures r.Ok? ==> forall d :: d in r.payload.records ==>
      exists e: Entity :: st.View().Get(Review, e.id) == Some(e) && RefersTo(e, "place_id", placeId) && d == ToDict(e)
  {
    match st.View().Get(Place, placeId)
    case None => NotFound
    case Some(place) =>
      StorageFacts.GetReturnsRequested(st.View(), Place, placeId);
      Ok(Records(ChildDicts(st.View(), Review, "place_id", place.id)))
  }

  /** GET /reviews/<review_id> */
  function GetReview(st: FileStorage, reviewId: Id): (r: Response)
    reads st
    requires st.Valid()
    ensures r.NotFound? <==> st.View().Get(Review, reviewId).None?
    ensures r.NotFound? || r.Ok?
    ensures r.Ok? ==> exists e: Entity :: e in st.View().Values(Some(Review)) && e.id == reviewId && r.payload == Record(ToDict(e))
  {
    match st.View().Get(Review, reviewId)
    case None => NotFound
    case Some(review) =>
      StorageFacts.GetReturnsRequested(st.View(), Review, reviewId);
      StorageFacts.GetAgreesWithAll(st.View(), Review);
      Ok(Record(ToDict(review)))
  }

  /** DELETE /reviews/<review_id>: only that Review is removed. */
  method DeleteReview(st: FileStorage, reviewId: Id) returns (r: Response)
    requires st.Valid()
    modifies st
    ensures st.Valid()
    ensures old(st.View().Get(Review, reviewId)).None? ==> r == NotFound && unchanged(st)
    ensures old(st.View().Get(Review, reviewId)).Some? ==>
      && r == Ok(NoContent)
      && st.View() == old(st.View()).Remove(Review, reviewId)
      && st.View().Get(Review, reviewId).None?
      && SameExcept(old(st.View()), st.View(), KeyOf(Review, reviewId))
      && st.file == st.View()
  {
    var review := st.View().Get(Review, reviewId);
    if review.None? {
      return NotFound;
    }
    StorageFacts.GetReturnsRequested(st.View(), Review, reviewId);
    st.Delete(review.value);
    st.Save();
    r := Ok(NoContent);
  }

  /** POST /places/<place_id>/reviews: the checks run in the order 404 Place, "Not a JSON",
      "Missing user_id", "Missing text", 404 User; the new Review's `place_id` is the path id,
      whatever the body says. */
  method CreateReview(st: FileStorage, placeId: Id, body: Body, newId: Id) returns (r: Response)
    requires st.Valid()
    modifies st
    ensures st.Valid()
    ensures old(st.View().Get(Place, placeId)).None? ==> r == NotFound && unchanged(st)
    ensures old(st.View().Get(Place, placeId)).Some? && NotJson(body) ==> r == BadRequest(NotAJson) && unchanged(st)
    ensures old(st.View().Get(Place, placeId)).Some? && !NotJson(body) && "user_id" !in body.value ==>
      r == BadRequest(Missing("user_id")) && unchanged(st)
    ensures old(st.View().Get(Place, placeId)).Some? && !NotJson(body) && "user_id" in body.value && "text" !in body.value ==>
      r == BadRequest(Missing("text")) && unchanged(st)
    ensures (old(st.View().Get(Place, placeId)).Some? && !NotJson(body) && "user_id" in body.value && "text" in body.value &&
             old(st.View().Lookup(User, body.value["user_id"])).None?) ==> r == NotFound && unchanged(st)
    ensures (old(st.View().Get(Place, placeId)).Some? && !NotJson(body) && "user_id" in body.value && "text" in body.value &&
             old(st.View().Lookup(User, body.value["user_id"])).Some?) ==>
      var review := Entity(Review, newId, body.value["place_id" := Str(placeId)], []);
      && r == Created(Record(ToDict(review)))
      && RefersTo(review, "place_id", placeId)
      && st.View() == old(st.View()).Put(review)
      && st.file == st.View()
  {
    var place := st.View().Get(Place, placeId);
    if place.None? {
      return NotFound;
    }
    if NotJson(body) {
      return BadRequest(NotAJson);
    }
    if "user_id" !in body.value {
      return BadRequest(Missing("user_id"));
    }
    if "text" !in body.value {
      return BadRequest(Missing("text"));
    }
    var data := body.value["place_id" := Str(placeId)];
    var user := st.View().Lookup(User, data["user_id"]);
    if user.None? {
      return NotFound;
    }
    var review := Entity(Review, newId, data, []);
    st.New(review);
    st.Save();
    r := Created(Record(ToDict(review)));
  }

  /** PUT /reviews/<review_id>: only `text` can change. */
  method UpdateReview(st: FileStorage, reviewId: Id, body: Body) returns (r: Response)
    requires st.Valid()
    modifies st
    ensures st.Valid()
    ensures old(st.View().Get(Review, reviewId)).None? ==> r == NotFound && unchanged(st)
    ensures old(st.View().Get(Review, reviewId)).Some? && NotJson(body) ==> r == BadRequest(NotAJson) && unchanged(st)
    ensures old(st.View().Get(Review, reviewId)).Some? && !NotJson(body) ==>
      var review := old(st.View().Get(Review, reviewId)).value;
      var updated := review.(attrs := Assigned(review.attrs, body.value, ReviewFields));
      && r == Ok(Record(ToDict(updated)))
      && st.View() == old(st.View()).Put(updated)
      && st.View().Get(Review, reviewId) == Some(updated)
      && st.file == st.View()
  {
    var review := st.View().Get(Review, reviewId);
    if review.None? {
      return NotFound;
    }
    if NotJson(body) {
      return BadRequest(NotAJson);
    }
    StorageFacts.GetReturnsRequested(st.View(), Review, reviewId);
    var updated := review.value.(attrs := Assigned(review.value.attrs, body.value, ReviewFields));
    st.New(updated);
    st.Save();
    r := Ok(Record(ToDict(updated)));
  }
}
