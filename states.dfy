/** The `/states` routes. */
module StatesView {
  import opened Json
  import opened Models
  import opened Storage
  import opened Http
  import opened Engine
  import opened Listing
  import StorageFacts

  /** The fields a PUT may change. */
  const StateFields: set<string> := {"name"}

  /** GET /states: one record per stored State. */
  function AllStates(st: FileStorage): (r: Response)
    reads st
    requires st.Valid()
    ensures r.Ok? && r.payload.Records?
    ensures |r.payload.records| == st.View().Count(Some(State))
    ensures forall e: Entity :: st.View().Get(State, e.id) == Some(e) ==> ToDict(e) in r.payload.records
    ensures forall d :: d in r.payload.records ==> exists e: Entity :: st.View().Get(State, e.id) == Some(e) && d == ToDict(e)
  {
    Ok(Records(KindDicts(st.View(), State)))
  }

  /** GET /states/<state_id> */
  function GetState(st: FileStorage, stateId: Id): (r: Response)
    reads st
    requires st.Valid()
    ensures r.NotFound? <==> st.View().Get(State, stateId).None?
    ensures r.NotFound? || r.Ok?
    ensures r.Ok? ==> exists e: Entity :: e in st.View().Values(Some(State)) && e.id == stateId && r.payload == Record(ToDict(e))
  {
    match st.View().Get(State, stateId)
    case None => NotFound
    case Some(state) =>
      StorageFacts.GetReturnsRequested(st.View(), State, stateId);
      StorageFacts.GetAgreesWithAll(st.View(), State);
      Ok(Record(ToDict(state)))
  }

  /** DELETE /states/<state_id> */
  method DeleteState(st: FileStorage, stateId: Id) returns (r: Response)
    requires st.Valid()
    modifies st
    ensures st.Valid()
    ensures old(st.View().Get(State, stateId)).None? ==> r == NotFound && unchanged(st)
    ensures old(st.View().Get(State, stateId)).Some? ==>
      && r == Ok(NoContent)
      && st.View() == old(st.View()).Remove(State, stateId)
      && st.View().Get(State, stateId).None?
      && SameExcept(old(st.View()), st.View(), KeyOf(State, stateId))
      && st.file == st.View()
  {
    var state := st.View().Get(State, stateId);
    if state.None? {
      return NotFound;
    }
    StorageFacts.GetReturnsRequested(st.View(), State, stateId);
    st.Delete(state.value);
    st.Save();
    r := Ok(NoContent);
  }

  /** POST /states; `newId` is the id the model layer generates for the new object. */
  method CreateState(st: FileStorage, body: Body, newId: Id) returns (r: Response)
    requires st.Valid()
    modifies st
    ensures st.Valid()
    ensures NotJson(body) ==> r == BadRequest(NotAJson) && unchanged(st)
    ensures !NotJson(body) && "name" !in body.value ==> r == BadRequest(Missing("name")) && unchanged(st)
    ensures !NotJson(body) && "name" in body.value ==>
      var state := Entity(State, newId, body.value, []);
      && r == Created(Record(ToDict(state)))
      && st.View() == old(st.View()).Put(state)
      && st.file == st.View()
  {
    if NotJson(body) {
      return BadRequest(NotAJson);
    }
    if "name" !in body.value {
      return BadRequest(Missing("name"));
    }
    var state := Entity(State, newId, body.value, []);
    st.New(state);
    st.Save();
    r := Created(Record(ToDict(state)));
  }

  /** PUT /states/<state_id>: only `name` can change. */
  method UpdateState(st: FileStorage, stateId: Id, body: Body) returns (r: Response)
    requires st.Valid()
    modifies st
    ensures st.Valid()
    ensures old(st.View().Get(State, stateId)).None? ==> r == NotFound && unchanged(st)
    ensures old(st.View().Get(State, stateId)).Some? && NotJson(body) ==> r == BadRequest(NotAJson) && unchanged(st)
    ensures old(st.View().Get(State, stateId)).Some? && !NotJson(body) ==>
      var state := old(st.View().Get(State, stateId)).value;
      var updated := state.(attrs := Assigned(state.attrs, body.value, StateFields));
      && r == Ok(Record(ToDict(updated)))
      && st.View() == old(st.View()).Put(updated)
      && st.View().Get(State, stateId) == Some(updated)
      && st.file == st.View()
  {
    var state := st.View().Get(State, stateId);
    if state.None? {
      return NotFound;
    }
    if NotJson(body) {
      return BadRequest(NotAJson);
    }
    StorageFacts.GetReturnsRequested(st.View(), State, stateId);
    var updated := state.value.(attrs := Assigned(state.value.attrs, body.value, StateFields));
    st.New(updated);
    st.Save();
    r := Ok(Record(ToDict(updated)));
  }
}
