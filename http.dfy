/** What a handler answers: a status and a JSON payload, or an aborted request. */
module Http {
  import opened Json

  datatype Payload =
    | Records(records: seq<Attrs>)  // a JSON list of objects
    | Record(record: Attrs)         // one JSON object
    | NoContent                     // `{}`

  datatype Response =
    | Ok(payload: Payload)          // 200
    | Created(payload: Payload)     // 201
    | NotFound                      // abort(404)
    | BadRequest(message: string)   // abort(400, message)
    | ServerError                   // an uncaught exception
  {
    function Status(): (code: int)
      ensures 200 <= code < 600
    {
      match this
      case Ok(_) => 200
      case Created(_) => 201
      case NotFound => 404
      case BadRequest(_) => 400
      case ServerError => 500
    }
  }

  const NotAJson := "Not a JSON"

  function Missing(field: string): string {
    "Missing " + field
  }

  /** The attributes after `obj.f = body.get("f", obj.f)` for every `f` in `fields`: a field
      named in the body takes the body's value, every other attribute keeps its value. */
  function Assigned(attrs: Attrs, body: Attrs, fields: set<string>): (r: Attrs)
    ensures forall k :: k in fields && k in body ==> k in r && r[k] == body[k]
    ensures forall k :: !(k in fields && k in body) ==> (k in r <==> k in attrs)
    ensures forall k :: !(k in fields && k in body) && k in attrs ==> r[k] == attrs[k]
  {
    attrs + Permitted(body, fields)
  }

  /** Assigning no field changes nothing. */
  lemma AssignedNone(attrs: Attrs, body: Attrs)
    ensures Assigned(attrs, body, {}) == attrs
  {
    assert Permitted(body, {}) == map[];
  }

  /** Assigning one more field `f` is one more `obj.f = body.get("f", obj.f)`. */
  lemma AssignedOneMore(attrs: Attrs, body: Attrs, fields: set<string>, f: string)
    ensures Assigned(attrs, body, fields + {f}) ==
      if f in body then Assigned(attrs, body, fields)[f := body[f]] else Assigned(attrs, body, fields)
  {
    var before, after := Assigned(attrs, body, fields), Assigned(attrs, body, fields + {f});
    var expected := if f in body then before[f := body[f]] else before;
    assert forall k :: k in after <==> k in expected;
    assert forall k :: k in after ==> after[k] == expected[k];
  }
}
