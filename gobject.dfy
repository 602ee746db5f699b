/**
  The reference counts of the native object system that VObject handles
  point into.  Only the two operations the handle calls are modelled:
  g_object_ref adds one reference, g_object_unref drops one, and an
  object whose count reaches zero is finalized.  An object is a key of the
  count map from its creation on; a finalized object keeps count 0.
 */
module GObjectRefs {

  /** The identity of a native object (the address a VipsObject pointer holds). */
  type ObjId = nat

  /** Reference count of every object created so far. */
  type Counts = map<ObjId, nat>

  /** The object exists and has not been finalized. */
  predicate Alive(c: Counts, id: ObjId)
  {
    id in c && c[id] > 0
  }

  /** g_object_ref: only a live object may gain a reference. */
  function AddRef(c: Counts, id: ObjId): (r: Counts)
    requires Alive(c, id)
    ensures r.Keys == c.Keys
    ensures r[id] == c[id] + 1 && Alive(r, id)
    ensures forall k :: k in c && k != id ==> r[k] == c[k]
  {
    c[id := c[id] + 1]
  }

  /** g_object_unref: drops one reference of a live object; at zero it is finalized. */
  function DropRef(c: Counts, id: ObjId): (r: Counts)
    requires Alive(c, id)
    ensures r.Keys == c.Keys
    ensures r[id] == c[id] - 1
    ensures Alive(r, id) <==> c[id] > 1
    ensures forall k :: k in c && k != id ==> r[k] == c[k]
  {
    c[id := c[id] - 1]
  }

  /** A reference taken and then given back leaves every count as it was. */
  lemma RefThenUnrefRestores(c: Counts, id: ObjId)
    requires Alive(c, id)
    ensures DropRef(AddRef(c, id), id) == c
  {
    var r := DropRef(AddRef(c, id), id);
    assert forall k :: k in c ==> r[k] == c[k];
  }

  /**
    The object system seen by the handles: one shared count map that
    g_object_ref and g_object_unref update in place, and (as a ghost) the
    set of objects an unref has finalized so far.
   */
  class Registry {
    var counts: Counts
    ghost var released: set<ObjId>

    constructor (initial: Counts)
      ensures counts == initial && released == {}
    {
      counts := initial;
      released := {};
    }

    /** g_object_ref */
    method Ref(id: ObjId)
      requires Alive(counts, id)
      modifies this
      ensures counts == AddRef(old(counts), id)
      ensures released == old(released)
    {
      counts := counts[id := counts[id] + 1];
    }

    /** g_object_unref; the object is finalized when this was its last reference. */
    method Unref(id: ObjId)
      requires Alive(counts, id)
      modifies this
      ensures counts == DropRef(old(counts), id)
      ensures released == if counts[id] == 0 then old(released) + {id} else old(released)
    {
      counts := counts[id := counts[id] - 1];
      if counts[id] == 0 {
        released := released + {id};
      }
    }
  }
}
