/** The six entity kinds of the catalog, their storage keys and their dictionary form. */
module Models {
  import opened Json

  datatype Kind = State | City | User | Place | Review | Amenity

  type Id = string

  /** The class name of a kind, as it appears in storage keys and `__class__`. */
  function KindName(k: Kind): (name: string)
    ensures |name| > 0 && '.' !in name
  {
    match k
    case State => "State"
    case City => "City"
    case User => "User"
    case Place => "Place"
    case Review => "Review"
    case Amenity => "Amenity"
  }

  /** The storage key `"<Kind>.<id>"`. */
  function KeyOf(k: Kind, id: Id): string {
    KindName(k) + "." + id
  }

  /** The key is the class name, a dot, and the id, which can be read back from it. */
  lemma KeyOfParts(k: Kind, id: Id)
    ensures var key := KeyOf(k, id);
      && |key| == |KindName(k)| + 1 + |id|
      && key[0] == KindName(k)[0] && key[|KindName(k)|] == '.'
      && key[|KindName(k)| + 1..] == id
  {
    var key := KeyOf(k, id);
    assert key == KindName(k) + ("." + id);
    assert key[|KindName(k)| + 1..] == id;
  }

  /** Two entities share a storage key only if they have the same kind and the same id. */
  lemma KeyOfInjective(k1: Kind, id1: Id, k2: Kind, id2: Id)
    requires KeyOf(k1, id1) == KeyOf(k2, id2)
    ensures k1 == k2 && id1 == id2
  {
    KeyOfParts(k1, id1);
    KeyOfParts(k2, id2);
    var key := KeyOf(k1, id1);
    // the six class names start with six different letters
    assert KindName(k1)[0] == key[0] == KindName(k2)[0];
    assert k1 == k2;
    assert id1 == key[|KindName(k1)| + 1..] == id2;
  }

  /** A stored object. `attrs` holds the attributes that were set from request bodies or by
      the handlers (name, state_id, text, ...); `amenityIds` is the Place's amenity list. */
  datatype Entity = Entity(kind: Kind, id: Id, attrs: Attrs, amenityIds: seq<Id>)

  /** The record a handler serialises: the attributes, with the object's own `id` and class. */
  function ToDict(e: Entity): (d: Attrs)
    ensures "id" in d && d["id"] == Str(e.id)
    ensures "__class__" in d && d["__class__"] == Str(KindName(e.kind))
    ensures forall k :: k in e.attrs && k != "id" && k != "__class__" ==> k in d && d[k] == e.attrs[k]
    ensures forall k :: k in d ==> k in e.attrs || k == "id" || k == "__class__"
  {
    e.attrs["id" := Str(e.id)]["__class__" := Str(KindName(e.kind))]
  }

  /** `[e.to_dict() for e in es]` */
  function Dicts(es: seq<Entity>): (ds: seq<Attrs>)
    ensures |ds| == |es|
    ensures forall i :: 0 <= i < |es| ==> ds[i] == ToDict(es[i])
  {
    seq(|es|, i requires 0 <= i < |es| => ToDict(es[i]))
  }

  /** The foreign-key attribute `fk` of `e` names the object `parent`. */
  predicate RefersTo(e: Entity, fk: string, parent: Id) {
    fk in e.attrs && e.attrs[fk] == Str(parent)
  }
}
