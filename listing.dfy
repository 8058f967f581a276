/** The list comprehensions the GET routes serialise. */
module Listing {
  import opened Json
  import opened Models
  import opened Storage
  import StorageFacts

  /** `[obj.to_dict() for obj in storage.all(kind).values()]`: one record per stored object
      of `kind`, and nothing else. */
  function KindDicts(s: Store, kind: Kind): (ds: seq<Attrs>)
    requires s.Valid()
    ensures |ds| == s.Count(Some(kind))
    ensures forall e: Entity :: s.Get(kind, e.id) == Some(e) ==> ToDict(e) in ds
    ensures forall d :: d in ds ==> exists e: Entity :: s.Get(kind, e.id) == Some(e) && d == ToDict(e)
  {
    StorageFacts.CountIsLenAll(s, Some(kind));
    StorageFacts.GetAgreesWithAll(s, kind);
    Dicts(s.Values(Some(kind)))
  }

  /** `[obj.to_dict() for obj in parent.<children>]`: one record per stored object of `kind`
      whose foreign key `fk` names `parent`, and nothing else. */
  function ChildDicts(s: Store, kind: Kind, fk: string, parent: Id): (ds: seq<Attrs>)
    requires s.Valid()
    ensures forall e: Entity :: s.Get(kind, e.id) == Some(e) && RefersTo(e, fk, parent) ==> ToDict(e) in ds
    ensures forall d :: d in ds ==> exists e: Entity :: s.Get(kind, e.id) == Some(e) && RefersTo(e, fk, parent) && d == ToDict(e)
  {
    StorageFacts.ChildrenAreReferrers(s, kind, fk, parent);
    Dicts(Children(s.Values(Some(kind)), fk, parent))
  }
}
