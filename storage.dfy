/** The object store the request handlers run against: a dictionary from `"<Kind>.<id>"` to
    object, enumerated in insertion order, with a backing copy written by `save` and read back
    by `reload`. */
module Storage {
  import opened Json
  import opened Models

  predicate NoDup<T(==)>(xs: seq<T>) {
    forall i, j :: 0 <= i < j < |xs| ==> xs[i] != xs[j]
  }

  /** `kind` is None for `all()`/`count()` without a class. */
  predicate Matches(e: Entity, kind: Option<Kind>) {
    kind.None? || e.kind == kind.value
  }

  /** `xs` with every occurrence of `x` removed, the rest in order. */
  function Without(xs: seq<string>, x: string): (r: seq<string>)
    ensures forall y :: y in r <==> y in xs && y != x
    ensures |r| <= |xs|
    ensures NoDup(xs) ==> NoDup(r)
  {
    if xs == [] then []
    else
      var rest := Without(xs[1..], x);
      assert NoDup(xs) ==> NoDup(xs[1..]) && xs[0] !in xs[1..] by {
        if NoDup(xs) {
          forall j | 0 <= j < |xs[1..]| ensures xs[1..][j] != xs[0] {
            assert xs[1..][j] == xs[j + 1];
          }
        }
      }
      if xs[0] == x then rest else [xs[0]] + rest
  }

  /** The objects stored under `keys`, in that order, restricted to `kind`: the values of
      `all(kind)` as a dictionary enumerates them. */
  function Collect(objects: map<string, Entity>, keys: seq<string>, kind: Option<Kind>): (es: seq<Entity>)
    ensures |es| <= |keys|
  {
    if keys == [] then []
    else (if keys[0] in objects && Matches(objects[keys[0]], kind) then [objects[keys[0]]] else []) + Collect(objects, keys[1..], kind)
  }

  /** How many of the objects stored under `keys` are of `kind`, counted key by key
      without building the list. */
  function Tally(objects: map<string, Entity>, keys: seq<string>, kind: Option<Kind>): nat {
    if keys == [] then 0
    else (if keys[0] in objects && Matches(objects[keys[0]], kind) then 1 else 0) + Tally(objects, keys[1..], kind)
  }

  /** The subsequence of `es` whose foreign key `fk` names `parent`: the derived relations
      `state.cities`, `city.places` and `place.reviews`. */
  function Children(es: seq<Entity>, fk: string, parent: Id): (r: seq<Entity>)
    ensures |r| <= |es|
  {
    if es == [] then []
    else (if RefersTo(es[0], fk, parent) then [es[0]] else []) + Children(es[1..], fk, parent)
  }

  /** The Amenity part of a Place -> Amenity link is dropped when `kind`/`id` is the deleted
      Amenity; every other object is returned as it was. */
  function Unlink(e: Entity, kind: Kind, id: Id): (r: Entity)
    ensures r.kind == e.kind && r.id == e.id && r.attrs == e.attrs
    ensures forall a :: a in r.amenityIds <==> a in e.amenityIds && !(kind == Amenity && e.kind == Place && a == id)
  {
    if kind == Amenity && e.kind == Place then e.(amenityIds := Without(e.amenityIds, id)) else e
  }

  datatype Store = Store(objects: map<string, Entity>, order: seq<string>) {

    /** Every key is enumerated exactly once, every object sits under its own key, and every
        Place links each existing Amenity at most once. */
    ghost predicate Valid() {
      && NoDup(order)
      && (forall key :: key in objects <==> key in order)
      && (forall key :: key in objects ==> KeyOf(objects[key].kind, objects[key].id) == key)
      && (forall key :: key in objects && objects[key].kind == Place ==> LinksValid(objects[key]))
    }

    /** The links of `p` name distinct Amenities of this store. */
    ghost predicate LinksValid(p: Entity) {
      NoDup(p.amenityIds) && forall a :: a in p.amenityIds ==> KeyOf(Amenity, a) in objects
    }

    /** `get(cls, id)`: the object, or None for an unknown id. */
    function Get(kind: Kind, id: Id): (r: Option<Entity>)
      ensures r.Some? <==> KeyOf(kind, id) in objects
      ensures r.Some? ==> r.value in objects.Values
    {
      var key := KeyOf(kind, id);
      if key in objects then Some(objects[key]) else None
    }

    /** `get(cls, v)` with an id taken from a request body: a value that is not a string
        names no object. */
    function Lookup(kind: Kind, v: Value): (r: Option<Entity>)
      ensures !v.Str? ==> r.None?
      ensures v.Str? ==> r == Get(kind, v.s)
    {
      if v.Str? then Get(kind, v.s) else None
    }

    /** `all(kind)` as a dictionary. */
    function All(kind: Option<Kind>): map<string, Entity> {
      map key | key in objects && Matches(objects[key], kind) :: objects[key]
    }

    /** `all(kind).values()`, in enumeration order. */
    function Values(kind: Option<Kind>): seq<Entity> {
      Collect(objects, order, kind)
    }

    /** `count(kind)`. */
    function Count(kind: Option<Kind>): nat {
      Tally(objects, order, kind)
    }

    /** `new(obj)`: the object is stored under its key; a key not seen before is enumerated last. */
    function Put(e: Entity): (r: Store)
      ensures r.Get(e.kind, e.id) == Some(e)
      ensures forall key :: key != KeyOf(e.kind, e.id) ==> (key in r.objects <==> key in objects)
      ensures forall key :: key != KeyOf(e.kind, e.id) && key in objects ==> r.objects[key] == objects[key]
    {
      var key := KeyOf(e.kind, e.id);
      if key in objects then Store(objects[key := e], order)
      else Store(objects[key := e], order + [key])
    }

    /** `delete(obj)`: the object is gone; deleting an Amenity also drops it from every
        Place's amenity list; an absent object leaves the store as it was. */
    function Remove(kind: Kind, id: Id): (r: Store)
      ensures r.Get(kind, id).None?
      ensures KeyOf(kind, id) !in objects ==> r == this
      ensures forall key :: key != KeyOf(kind, id) ==> (key in r.objects <==> key in objects)
      ensures KeyOf(kind, id) in objects ==>
        forall key :: key in r.objects ==> r.objects[key] == Unlink(objects[key], kind, id)
    {
      var key := KeyOf(kind, id);
      if key !in objects then this
      else Store(map k | k in objects && k != key :: Unlink(objects[k], kind, id), Without(order, key))
    }

    /** `state.cities` */
    function CitiesOf(stateId: Id): seq<Entity> {
      Children(Values(Some(City)), "state_id", stateId)
    }

    /** `city.places` */
    function PlacesOf(cityId: Id): seq<Entity> {
      Children(Values(Some(Place)), "city_id", cityId)
    }

    /** `place.reviews` */
    function ReviewsOf(placeId: Id): seq<Entity> {
      Children(Values(Some(Review)), "place_id", placeId)
    }

    /** `place.amenities`: the linked Amenities in link order. */
    function AmenitiesOf(p: Entity): (r: seq<Entity>)
      ensures |r| <= |p.amenityIds|
    {
      Linked(p.amenityIds)
    }

    /** The stored Amenities named by `ids`, in order; an id naming none is skipped. */
    function Linked(ids: seq<Id>): (r: seq<Entity>)
      ensures |r| <= |ids|
    {
      if ids == [] then []
      else (match Get(Amenity, ids[0]) case Some(a) => [a] case None => []) + Linked(ids[1..])
    }
  }

  const Empty := Store(map[], [])

  /** Every object other than the one under `key` is stored in `after` exactly as in `before`. */
  ghost predicate SameExcept(before: Store, after: Store, key: string) {
    forall k :: k != key ==>
      (k in before.objects <==> k in after.objects) &&
      (k in before.objects ==> before.objects[k] == after.objects[k])
  }
}

/** Facts about the store that the storage tests pin down, and the invariant its updates keep. */
module StorageFacts {
  import opened Json
  import opened Models
  import opened Storage

  /** The enumerated values of `kind` are the objects stored under the listed keys that
      are of `kind`. */
  lemma {:induction false} CollectMembers(objects: map<string, Entity>, keys: seq<string>, kind: Option<Kind>)
    ensures forall e :: e in Collect(objects, keys, kind) <==>
      exists i :: 0 <= i < |keys| && keys[i] in objects && objects[keys[i]] == e && Matches(e, kind)
  {
    if keys != [] {
      CollectMembers(objects, keys[1..], kind);
      forall e ensures (exists i :: 0 <= i < |keys[1..]| && keys[1..][i] in objects && objects[keys[1..][i]] == e && Matches(e, kind))
                   <== (exists i :: 1 <= i < |keys| && keys[i] in objects && objects[keys[i]] == e && Matches(e, kind)) {
        if i :| 1 <= i < |keys| && keys[i] in objects && objects[keys[i]] == e && Matches(e, kind) {
          assert keys[1..][i - 1] == keys[i];
        }
      }
    }
  }

  /** The children are exactly the members whose foreign key names the parent. */
  lemma {:induction false} ChildrenMembers(es: seq<Entity>, fk: string, parent: Id)
    ensures forall e :: e in Children(es, fk, parent) <==> e in es && RefersTo(e, fk, parent)
  {
    if es != [] {
      ChildrenMembers(es[1..], fk, parent);
      assert forall e :: e in es <==> e == es[0] || e in es[1..];
    }
  }

  /** An Amenity is among those `ids` names exactly when some id gets it. */
  lemma {:induction false} LinkedMembers(s: Store, ids: seq<Id>)
    ensures forall a :: a in s.Linked(ids) <==> exists i :: 0 <= i < |ids| && s.Get(Amenity, ids[i]) == Some(a)
  {
    if ids != [] {
      LinkedMembers(s, ids[1..]);
      forall a ensures (exists i :: 0 <= i < |ids[1..]| && s.Get(Amenity, ids[1..][i]) == Some(a))
                   <== (exists i :: 1 <= i < |ids| && s.Get(Amenity, ids[i]) == Some(a)) {
        if i :| 1 <= i < |ids| && s.Get(Amenity, ids[i]) == Some(a) {
          assert ids[1..][i - 1] == ids[i];
        }
      }
    }
  }

  lemma {:induction false} TallyIsLenCollect(objects: map<string, Entity>, keys: seq<string>, kind: Option<Kind>)
    ensures Tally(objects, keys, kind) == |Collect(objects, keys, kind)|
  {
    if keys != [] {
      TallyIsLenCollect(objects, keys[1..], kind);
    }
  }

  lemma {:induction false} TallyCountsKeys(objects: map<string, Entity>, keys: seq<string>, kind: Option<Kind>)
    requires NoDup(keys)
    requires forall key :: key in keys ==> key in objects
    ensures Tally(objects, keys, kind) == |set key | key in keys && key in objects && Matches(objects[key], kind)|
  {
    if keys != [] {
      var rest := keys[1..];
      assert NoDup(rest) by {
        forall i, j | 0 <= i < j < |rest| ensures rest[i] != rest[j] {
          assert rest[i] == keys[i + 1] && rest[j] == keys[j + 1];
        }
      }
      assert keys[0] !in rest by {
        forall j | 0 <= j < |rest| ensures rest[j] != keys[0] {
          assert rest[j] == keys[j + 1];
        }
      }
      assert forall key :: key in rest ==> key in keys;
      TallyCountsKeys(objects, rest, kind);
      var whole := set key | key in keys && key in objects && Matches(objects[key], kind);
      var tail := set key | key in rest && key in objects && Matches(objects[key], kind);
      assert forall key :: key in keys <==> key == keys[0] || key in rest;
      if Matches(objects[keys[0]], kind) {
        assert whole == tail + {keys[0]};
        assert keys[0] !in tail;
      } else {
        assert whole == tail;
      }
    }
  }

  /** The keys of `all(kind)` are the enumerated keys whose object is of `kind`. */
  lemma AllKeysEnumerated(s: Store, kind: Option<Kind>)
    requires s.Valid()
    ensures s.All(kind).Keys == set key | key in s.order && key in s.objects && Matches(s.objects[key], kind)
  {
    assert forall key :: key in s.objects <==> key in s.order;
  }

  /** `count(kind) == len(all(kind))`, with or without a class, and it is also the length of
      the enumerated values. */
  lemma CountIsLenAll(s: Store, kind: Option<Kind>)
    requires s.Valid()
    ensures s.Count(kind) == |s.All(kind)|
    ensures s.Count(kind) == |s.Values(kind)|
  {
    TallyIsLenCollect(s.objects, s.order, kind);
    TallyCountsKeys(s.objects, s.order, kind);
    AllKeysEnumerated(s, kind);
  }

  /** `count()` without a class is the number of stored objects. */
  lemma CountAllIsSize(s: Store)
    requires s.Valid()
    ensures s.Count(None) == |s.objects|
  {
    CountIsLenAll(s, None);
    assert s.All(None) == s.objects;
  }

  /** `get` answers with an object of the requested class and id. */
  lemma GetReturnsRequested(s: Store, kind: Kind, id: Id)
    requires s.Valid()
    ensures s.Get(kind, id).Some? ==> s.Get(kind, id).value.kind == kind && s.Get(kind, id).value.id == id
  {
    var key := KeyOf(kind, id);
    if key in s.objects {
      var e := s.objects[key];
      KeyOfInjective(e.kind, e.id, kind, id);
    }
  }

  /** `get(kind, e.id)` finds `e` exactly when `e` is among the values of `all(kind)`. */
  lemma GetAgreesWithAll(s: Store, kind: Kind)
    requires s.Valid()
    ensures forall e: Entity :: s.Get(kind, e.id) == Some(e) <==> e in s.Values(Some(kind))
  {
    CollectMembers(s.objects, s.order, Some(kind));
    forall e: Entity ensures s.Get(kind, e.id) == Some(e) <==> e in s.Values(Some(kind)) {
      if s.Get(kind, e.id) == Some(e) {
        GetReturnsRequested(s, kind, e.id);
        var key := KeyOf(kind, e.id);
        var i :| 0 <= i < |s.order| && s.order[i] == key;
        assert s.order[i] in s.objects && s.objects[s.order[i]] == e && Matches(e, Some(kind));
      }
      if e in s.Values(Some(kind)) {
        var i :| 0 <= i < |s.order| && s.order[i] in s.objects && s.objects[s.order[i]] == e && Matches(e, Some(kind));
        assert KeyOf(e.kind, e.id) == s.order[i];
      }
    }
  }

  /** `state.cities`, `city.places` and `place.reviews` hold exactly the stored objects of the
      child class whose foreign key names the parent. */
  lemma ChildrenAreReferrers(s: Store, kind: Kind, fk: string, parent: Id)
    requires s.Valid()
    ensures forall e: Entity :: e in Children(s.Values(Some(kind)), fk, parent) <==> s.Get(kind, e.id) == Some(e) && RefersTo(e, fk, parent)
  {
    GetAgreesWithAll(s, kind);
    ChildrenMembers(s.Values(Some(kind)), fk, parent);
  }

  /** With every link naming a stored Amenity, `place.amenities` lists one Amenity per link,
      in link order. */
  lemma {:induction false} LinkedInOrder(s: Store, ids: seq<Id>)
    requires forall a :: a in ids ==> KeyOf(Amenity, a) in s.objects
    ensures |s.Linked(ids)| == |ids|
    ensures forall i :: 0 <= i < |ids| ==> s.Get(Amenity, ids[i]).Some? && s.Linked(ids)[i] == s.Get(Amenity, ids[i]).value
  {
    if ids != [] {
      var rest := ids[1..];
      assert forall a :: a in rest ==> a in ids;
      LinkedInOrder(s, rest);
      var first := s.Get(Amenity, ids[0]).value;
      assert s.Linked(ids) == [first] + s.Linked(rest);
      forall i | 1 <= i < |ids| ensures s.Linked(ids)[i] == s.Get(Amenity, ids[i]).value {
        assert rest[i - 1] == ids[i];
      }
    }
  }

  /** For a stored Place and a stored Amenity, `amenity in place.amenities` holds exactly when
      the Place's link list holds the Amenity's id. */
  lemma LinkedIffListed(s: Store, p: Entity, a: Entity)
    requires s.Valid()
    requires s.Get(Amenity, a.id) == Some(a)
    ensures a in s.AmenitiesOf(p) <==> a.id in p.amenityIds
  {
    LinkedMembers(s, p.amenityIds);
    if a in s.AmenitiesOf(p) {
      var i :| 0 <= i < |p.amenityIds| && s.Get(Amenity, p.amenityIds[i]) == Some(a);
      GetReturnsRequested(s, Amenity, p.amenityIds[i]);
    }
    if a.id in p.amenityIds {
      var i :| 0 <= i < |p.amenityIds| && p.amenityIds[i] == a.id;
      assert s.Get(Amenity, p.amenityIds[i]) == Some(a);
    }
  }

  /** After an Amenity is deleted no Place links it, whether or not it was stored. */
  lemma RemovedAmenityIsUnlinked(s: Store, id: Id)
    requires s.Valid()
    ensures forall key :: key in s.Remove(Amenity, id).objects && s.Remove(Amenity, id).objects[key].kind == Place ==>
      id !in s.Remove(Amenity, id).objects[key].amenityIds
  {
    var r := s.Remove(Amenity, id);
    if KeyOf(Amenity, id) !in s.objects {
      forall key | key in r.objects && r.objects[key].kind == Place ensures id !in r.objects[key].amenityIds {
        assert s.LinksValid(s.objects[key]);
      }
    }
  }

  lemma {:induction false} TallyFrame(o1: map<string, Entity>, o2: map<string, Entity>, keys: seq<string>, kind: Option<Kind>)
    requires forall key :: key in keys ==> (key in o1 <==> key in o2)
    requires forall key :: key in keys && key in o1 ==> (Matches(o1[key], kind) <==> Matches(o2[key], kind))
    ensures Tally(o1, keys, kind) == Tally(o2, keys, kind)
  {
    if keys != [] {
      TallyFrame(o1, o2, keys[1..], kind);
    }
  }

  lemma {:induction false} TallyAppend(objects: map<string, Entity>, keys: seq<string>, x: string, kind: Option<Kind>)
    ensures Tally(objects, keys + [x], kind) ==
      Tally(objects, keys, kind) + (if x in objects && Matches(objects[x], kind) then 1 else 0)
  {
    if keys == [] {
      assert keys + [x] == [x];
    } else {
      assert (keys + [x])[1..] == keys[1..] + [x];
      TallyAppend(objects, keys[1..], x, kind);
    }
  }

  lemma {:induction false} TallyWithout(objects: map<string, Entity>, keys: seq<string>, x: string, kind: Option<Kind>)
    requires NoDup(keys)
    ensures Tally(objects, Without(keys, x), kind) + (if x in keys && x in objects && Matches(objects[x], kind) then 1 else 0)
         == Tally(objects, keys, kind)
  {
    if keys != [] {
      var rest := keys[1..];
      assert NoDup(rest) by {
        forall i, j | 0 <= i < j < |rest| ensures rest[i] != rest[j] {
          assert rest[i] == keys[i + 1] && rest[j] == keys[j + 1];
        }
      }
      assert keys[0] !in rest by {
        forall j | 0 <= j < |rest| ensures rest[j] != keys[0] {
          assert rest[j] == keys[j + 1];
        }
      }
      TallyWithout(objects, rest, x, kind);
      assert forall key :: key in keys <==> key == keys[0] || key in rest;
    }
  }

  /** `new(obj)` raises the count of the object's class by one when its key is new, and
      leaves every count unchanged when it replaces an object. */
  lemma CountAfterPut(s: Store, e: Entity, kind: Option<Kind>)
    requires s.Valid()
    ensures s.Put(e).Count(kind) ==
      s.Count(kind) + (if KeyOf(e.kind, e.id) !in s.objects && Matches(e, kind) then 1 else 0)
  {
    var key := KeyOf(e.kind, e.id);
    var r := s.Put(e);
    if key in s.objects {
      var old_e := s.objects[key];
      KeyOfInjective(old_e.kind, old_e.id, e.kind, e.id);
      TallyFrame(s.objects, r.objects, s.order, kind);
    } else {
      TallyAppend(r.objects, s.order, key, kind);
      TallyFrame(s.objects, r.objects, s.order, kind);
    }
  }

  /** `delete(obj)` lowers the count of the object's class by one when it was stored and
      leaves the other counts unchanged. */
  lemma CountAfterRemove(s: Store, kind: Kind, id: Id, k: Option<Kind>)
    requires s.Valid()
    ensures var key := KeyOf(kind, id);
      s.Remove(kind, id).Count(k) + (if key in s.objects && Matches(s.objects[key], k) then 1 else 0) == s.Count(k)
  {
    var key := KeyOf(kind, id);
    var r := s.Remove(kind, id);
    if key in s.objects {
      TallyWithout(s.objects, s.order, key, k);
      TallyFrame(s.objects, r.objects, r.order, k);
    }
  }

  /** Storing an object keeps the store well formed, provided a Place's links name
      distinct stored Amenities. */
  lemma PutKeepsValid(s: Store, e: Entity)
    requires s.Valid()
    requires e.kind == Place ==> s.LinksValid(e)
    ensures s.Put(e).Valid()
  {
    var key := KeyOf(e.kind, e.id);
    var r := s.Put(e);
    if key !in s.objects {
      assert NoDup(r.order) by {
        forall i, j | 0 <= i < j < |r.order| ensures r.order[i] != r.order[j] {
          if j == |s.order| {
            assert r.order[i] == s.order[i];
          } else {
            assert r.order[i] == s.order[i] && r.order[j] == s.order[j];
          }
        }
      }
      assert forall k :: k in r.order <==> k in s.order || k == key;
    }
    forall k | k in r.objects && r.objects[k].kind == Place ensures r.LinksValid(r.objects[k]) {
      assert s.LinksValid(r.objects[k]);
    }
  }

  /** Deleting an object keeps the store well formed: in particular no Place is left linked
      to a deleted Amenity. */
  lemma RemoveKeepsValid(s: Store, kind: Kind, id: Id)
    requires s.Valid()
    ensures s.Remove(kind, id).Valid()
  {
    var key := KeyOf(kind, id);
    var r := s.Remove(kind, id);
    if key in s.objects {
      forall k | k in r.objects && r.objects[k].kind == Place ensures r.LinksValid(r.objects[k]) {
        var p := s.objects[k];
        assert s.LinksValid(p);
        forall a | a in r.objects[k].amenityIds ensures KeyOf(Amenity, a) in r.objects {
          if KeyOf(Amenity, a) == key {
            KeyOfInjective(Amenity, a, kind, id);
          }
        }
      }
    }
  }
}
