/** The `/users` routes. */
module UsersView {
  import opened Json
  import opened Models
  import opened Storage
  import opened Http
  import opened Engine
  import opened Listing
  import StorageFacts

  /** The fields a PUT may change; `email` and `id` are not among them. */
  const UserFields: set<string> := {"first_name", "last_name", "password"}

  /** GET /users: one record per stored User. */
  function AllUsers(st: FileStorage): (r: Response)
    reads st
    requires st.Valid()
    ensures r.Ok? && r.payload.Records?
    ensures |r.payload.records| == st.View().Count(Some(User))
    ensures forall e: Entity :: st.View().Get(User, e.id) == Some(e) ==> ToDict(e) in r.payload.records
    ensures forall d :: d in r.payload.records ==> exists e: Entity :: st.View().Get(User, e.id) == Some(e) && d == ToDict(e)
  {
    Ok(Records(KindDicts(st.View(), User)))
  }

  /** GET /users/<user_id> */
  function GetUser(st: FileStorage, userId: Id): (r: Response)
    reads st
    requires st.Valid()
    ensures r.NotFound? <==> st.View().Get(User, userId).None?
    ensures r.NotFound? || r.Ok?
    ensures r.Ok? ==> exists e: Entity :: e in st.View().Values(Some(User)) && e.id == userId && r.payload == Record(ToDict(e))
  {
    match st.View().Get(User, userId)
    case None => NotFound
    case Some(user) =>
      StorageFacts.GetReturnsRequested(st.View(), User, userId);
      StorageFacts.GetAgreesWithAll(st.View(), User);
      Ok(Record(ToDict(user)))
  }

  /** DELETE /users/<user_id>: only that User is removed. */
  method DeleteUser(st: FileStorage, userId: Id) returns (r: Response)
    requires st.Valid()
    modifies st
    ensures st.Valid()
    ensures old(st.View().Get(User, userId)).None? ==> r == NotFound && unchanged(st)
    ensures old(st.View().Get(User, userId)).Some? ==>
      && r == Ok(NoContent)
      && st.View() == old(st.View()).Remove(User, userId)
      && st.View().Get(User, userId).None?
      && SameExcept(old(st.View()), st.View(), KeyOf(User, userId))
      && st.file == st.View()
  {
    var user := st.View().Get(User, userId);
    if user.None? {
      return NotFound;
    }
    StorageFacts.GetReturnsRequested(st.View(), User, userId);
    st.Delete(user.value);
    st.Save();
    r := Ok(NoContent);
  }

  /** POST /users */
  method CreateUser(st: FileStorage, body: Body, newId: Id) returns (r: Response)
    requires st.Valid()
    modifies st
    ensures st.Valid()
    ensures NotJson(body) ==> r == BadRequest(NotAJson) && unchanged(st)
    ensures !NotJson(body) && "email" !in body.value ==> r == BadRequest(Missing("email")) && unchanged(st)
    ensures !NotJson(body) && "email" in body.value && "password" !in body.value ==>
      r == BadRequest(Missing("password")) && unchanged(st)
    ensures !NotJson(body) && "email" in body.value && "password" in body.value ==>
      var user := Entity(User, newId, body.value, []);
      && r == Created(Record(ToDict(user)))
      && st.View() == old(st.View()).Put(user)
      && st.file == st.View()
  {
    if NotJson(body) {
      return BadRequest(NotAJson);
    }
    if "email" !in body.value {
      return BadRequest(Missing("email"));
    }
    if "password" !in body.value {
      return BadRequest(Missing("password"));
    }
    var user := Entity(User, newId, body.value, []);
    st.New(user);
    st.Save();
    r := Created(Record(ToDict(user)));
  }

  /** `user.f = data.get("f", user.f)` for `first_name`, `last_name` and `password`, one
      after the other: a field the body names takes its value, every other attribute,
      `email` and `id` among them, keeps its own. */
  method AssignUserFields(attrs: Attrs, data: Attrs) returns (r: Attrs)
    ensures r == Assigned(attrs, data, UserFields)
    ensures "email" in attrs ==> "email" in r && r["email"] == attrs["email"]
  {
    r := attrs;
    AssignedNone(attrs, data);
    if "first_name" in data {
      r := r["first_name" := data["first_name"]];
    }
    AssignedOneMore(attrs, data, {}, "first_name");
    if "last_name" in data {
      r := r["last_name" := data["last_name"]];
    }
    AssignedOneMore(attrs, data, {"first_name"}, "last_name");
    if "password" in data {
      r := r["password" := data["password"]];
    }
    AssignedOneMore(attrs, data, {"first_name", "last_name"}, "password");
    assert {} + {"first_name"} == {"first_name"};
    assert {"first_name"} + {"last_name"} == {"first_name", "last_name"};
    assert {"first_name", "last_name"} + {"password"} == UserFields;
  }

  /** PUT /users/<user_id>: `first_name`, `last_name` and `password` are assigned one after
      the other, each keeping its value when the body does not name it. */
  method UpdateUser(st: FileStorage, userId: Id, body: Body) returns (r: Response)
    requires st.Valid()
    modifies st
    ensures st.Valid()
    ensures old(st.View().Get(User, userId)).None? ==> r == NotFound && unchanged(st)
    ensures old(st.View().Get(User, userId)).Some? && NotJson(body) ==> r == BadRequest(NotAJson) && unchanged(st)
    ensures old(st.View().Get(User, userId)).Some? && !NotJson(body) ==>
      var user := old(st.View().Get(User, userId)).value;
      var updated := user.(attrs := Assigned(user.attrs, body.value, UserFields));
      && r == Ok(Record(ToDict(updated)))
      && st.View() == old(st.View()).Put(updated)
      && st.View().Get(User, userId) == Some(updated)
      && st.file == st.View()
  {
    var user := st.View().Get(User, userId);
    if user.None? {
      return NotFound;
    }
    if NotJson(body) {
      return BadRequest(NotAJson);
    }
    StorageFacts.GetReturnsRequested(st.View(), User, userId);
    var attrs := AssignUserFields(user.value.attrs, body.value);
    var updated := user.value.(attrs := attrs);
    st.New(updated);
    st.Save();
    r := Ok(Record(ToDict(updated)));
  }
}
