/** The storage object shared by every handler. */
module Engine {
  import opened Json
  import opened Models
  import opened Storage
  import StorageFacts

  class FileStorage {
    var objects: map<string, Entity>
    var order: seq<string>
    /** The backing document as the last `save` wrote it. */
    var file: Store

    function View(): Store
      reads this
    {
      Store(objects, order)
    }

    ghost predicate Valid()
      reads this
    {
      View().Valid() && file.Valid()
    }

    constructor ()
      ensures Valid() && View() == Empty && file == Empty
    {
      objects, order, file := map[], [], Empty;
    }

    /** `new(obj)` */
    method New(e: Entity)
      requires Valid()
      requires e.kind == Place ==> View().LinksValid(e)
      modifies this
      ensures Valid()
      ensures View() == old(View()).Put(e) && file == old(file)
    {
      StorageFacts.PutKeepsValid(View(), e);
      var key := KeyOf(e.kind, e.id);
      if key !in objects {
        order := order + [key];
      }
      objects := objects[key := e];
    }

    /** `delete(obj)` */
    method Delete(e: Entity)
      requires Valid()
      modifies this
      ensures Valid()
      ensures View() == old(View()).Remove(e.kind, e.id) && file == old(file)
    {
      StorageFacts.RemoveKeepsValid(View(), e.kind, e.id);
      var key := KeyOf(e.kind, e.id);
      if key in objects {
        objects := map k | k in objects && k != key :: Unlink(objects[k], e.kind, e.id);
        order := Without(order, key);
      }
    }

    /** `save()`: the backing document holds exactly the live objects. */
    method Save()
      requires Valid()
      modifies this
      ensures Valid()
      ensures View() == old(View()) && file == View()
    {
      file := View();
    }

    /** `reload()`: the live objects are those of the backing document; whatever was not
        saved is lost. */
    method Reload()
      requires Valid()
      modifies this
      ensures Valid()
      ensures View() == old(file) && file == old(file)
    {
      objects, order := file.objects, file.order;
    }
  }

  /** The storage test sequence: delete, save, reload, get. The object stays gone. */
  method DeleteSaveReload(st: FileStorage, e: Entity) returns (found: Option<Entity>)
    requires st.Valid()
    modifies st
    ensures st.Valid()
    ensures found.None? && st.View() == old(st.View()).Remove(e.kind, e.id)
  {
    st.Delete(e);
    st.Save();
    st.Reload();
    found := st.View().Get(e.kind, e.id);
  }
}
