/**
  VObject, the smart pointer every VImage is built on: it holds one
  VipsObject pointer, possibly NULL, and ties that object's lifetime to
  its own construction, copying, assignment and destruction by calling
  g_object_ref and g_object_unref.

  Each lifecycle event is specified by a function giving its effect on the
  shared reference counts; the class methods are proved to have exactly
  that effect.
 */
module VObjectLifecycle {
  import opened Wrappers
  import opened GObjectRefs

  /** enum VSteal: NOSTEAL = 0 adds a reference, STEAL = 1 adopts the caller's. */
  datatype VSteal = NoSteal | Steal

  /** A VipsObject pointer; None is NULL. */
  type Pointer = Option<ObjId>

  /** A non-null pointer handed to a handle must point at a live object. */
  predicate Live(c: Counts, p: Pointer)
  {
    p.Some? ==> Alive(c, p.value)
  }

  /** 1 when the pointer p points at object k, else 0. */
  function Holds(p: Pointer, k: ObjId): nat
  {
    if p == Some(k) then 1 else 0
  }

  /** The object p points at, when its count c has reached zero. */
  function Finalized(c: Counts, p: Pointer): set<ObjId>
    requires p.Some? ==> p.value in c
  {
    if p.Some? && c[p.value] == 0 then {p.value} else {}
  }

  /** Effect of VObject(p, steal): a reference is added only for NOSTEAL and a non-null p. */
  function ConstructEffect(c: Counts, p: Pointer, steal: VSteal): (r: Counts)
    requires Live(c, p)
    ensures r.Keys == c.Keys
    ensures forall k :: k in c ==> r[k] == c[k] + (if steal == NoSteal then Holds(p, k) else 0)
  {
    if steal == NoSteal && p.Some? then AddRef(c, p.value) else c
  }

  /** Effect of the copy constructor VObject(a): one reference on a's object, if any. */
  function CopyEffect(c: Counts, p: Pointer): (r: Counts)
    requires Live(c, p)
    ensures r.Keys == c.Keys && Live(r, p)
    ensures forall k :: k in c ==> r[k] == c[k] + Holds(p, k)
  {
    if p.Some? then AddRef(c, p.value) else c
  }

  /**
    Effect of x = a, where src is a's pointer and dst is x's old one: the
    source is referenced first and the old target released afterwards.
   */
  function AssignEffect(c: Counts, src: Pointer, dst: Pointer): (r: Counts)
    requires Live(c, src) && Live(c, dst)
    ensures r.Keys == c.Keys && Live(r, src)
    ensures forall k :: k in c ==> r[k] == c[k] + Holds(src, k) - Holds(dst, k)
  {
    var afterRef := if src.Some? then AddRef(c, src.value) else c;
    if dst.Some? then DropRef(afterRef, dst.value) else afterRef
  }

  /** Effect of ~VObject(): one reference released on the held object, if any. */
  function DestroyEffect(c: Counts, p: Pointer): (r: Counts)
    requires Live(c, p)
    ensures r.Keys == c.Keys
    ensures forall k :: k in c ==> r[k] == c[k] - Holds(p, k)
  {
    if p.Some? then DropRef(c, p.value) else c
  }

  /** a = a leaves every count as it was. */
  lemma SelfAssignIsNeutral(c: Counts, p: Pointer)
    requires Live(c, p)
    ensures AssignEffect(c, p, p) == c
  {
    var r := AssignEffect(c, p, p);
    assert forall k :: k in c ==> r[k] == c[k];
  }

  /** Copying a handle and destroying the copy leaves every count as it was. */
  lemma CopyThenDestroyIsNeutral(c: Counts, p: Pointer)
    requires Live(c, p)
    ensures DestroyEffect(CopyEffect(c, p), p) == c
  {
    var r := DestroyEffect(CopyEffect(c, p), p);
    assert forall k :: k in c ==> r[k] == c[k];
  }

  /**
    The reverse order, releasing the old target before referencing the
    source: None when the reference would be taken on a finalized object.
   */
  function UnrefThenRef(c: Counts, src: Pointer, dst: Pointer): Option<Counts>
    requires Live(c, src) && Live(c, dst)
  {
    var afterUnref := if dst.Some? then DropRef(c, dst.value) else c;
    if src.None? then Some(afterUnref)
    else if Alive(afterUnref, src.value) then Some(AddRef(afterUnref, src.value))
    else None
  }

  /**
    Why the reference on the source comes first: in the reverse order, a = a
    on an object with a single reference finalizes it and then references a
    dead object, while the order used keeps the object alive and its count unchanged.
   */
  lemma UnrefFirstBreaksSelfAssign(c: Counts, id: ObjId)
    requires id in c && c[id] == 1
    ensures UnrefThenRef(c, Some(id), Some(id)) == None
    ensures AssignEffect(c, Some(id), Some(id)) == c && Alive(c, id)
  {
    SelfAssignIsNeutral(c, Some(id));
  }

  /** The two orders agree whenever the source's object survives the early release. */
  lemma OrdersAgreeUnlessSourceDies(c: Counts, src: Pointer, dst: Pointer)
    requires Live(c, src) && Live(c, dst)
    requires src.Some? && src == dst ==> c[src.value] > 1
    ensures UnrefThenRef(c, src, dst) == Some(AssignEffect(c, src, dst))
  {
    var afterUnref := if dst.Some? then DropRef(c, dst.value) else c;
    assert afterUnref.Keys == c.Keys;
    assert forall k :: k in c ==> afterUnref[k] == c[k] - Holds(dst, k);
    assert src.Some? ==> Alive(afterUnref, src.value);
    assert UnrefThenRef(c, src, dst).Some?;
    var r := UnrefThenRef(c, src, dst).value;
    var r' := AssignEffect(c, src, dst);
    assert forall k :: k in c ==> r[k] == afterUnref[k] + Holds(src, k);
    assert r.Keys == r'.Keys;
    assert forall k :: k in c ==> r[k] == r'[k];
    assert r == r';
  }

  class VObject {
    var vobject: Pointer

    /** VObject(new_vobject, steal = STEAL) */
    constructor (reg: Registry, newObject: Pointer, steal: VSteal := Steal)
      requires Live(reg.counts, newObject)
      modifies reg
      ensures vobject == newObject
      ensures reg.counts == ConstructEffect(old(reg.counts), newObject, steal)
      ensures reg.released == old(reg.released)
    {
      vobject := newObject;
      new;
      if steal == NoSteal && vobject.Some? {
        reg.Ref(vobject.value);
      }
    }

    /** VObject(): a null handle; no count changes. */
    constructor Null()
      ensures vobject == None
    {
      vobject := None;
    }

    /** The copy constructor VObject(const VObject &a). */
    constructor Copy(reg: Registry, a: VObject)
      requires Live(reg.counts, a.vobject)
      modifies reg
      ensures vobject == a.vobject
      ensures reg.counts == CopyEffect(old(reg.counts), a.vobject)
      ensures reg.released == old(reg.released)
    {
      vobject := a.vobject;
      new;
      if vobject.Some? {
        reg.Ref(vobject.value);
      }
    }

    /**
      operator=(const VObject &a), which returns *this.  a may be this
      handle itself.  The only object an assignment can finalize is the old
      target, and never when it is also the source.
     */
    method Assign(reg: Registry, a: VObject) returns (self: VObject)
      requires Live(reg.counts, a.vobject) && Live(reg.counts, vobject)
      modifies this, reg
      ensures self == this
      ensures vobject == old(a.vobject) && a.vobject == old(a.vobject)
      ensures reg.counts == AssignEffect(old(reg.counts), old(a.vobject), old(vobject))
      ensures reg.released == old(reg.released) + Finalized(reg.counts, old(vobject))
      ensures forall id :: id in reg.released && id !in old(reg.released) ==>
                old(vobject) == Some(id) && old(a.vobject) != Some(id)
    {
      if a.vobject.Some? {
        reg.Ref(a.vobject.value);
      }
      if vobject.Some? {
        reg.Unref(vobject.value);
      }
      vobject := a.vobject;
      self := this;
    }

    /** ~VObject(): releases the held reference, if any; the field itself is left as it is. */
    method Destroy(reg: Registry)
      requires Live(reg.counts, vobject)
      modifies reg
      ensures reg.counts == DestroyEffect(old(reg.counts), vobject)
      ensures reg.released == old(reg.released) + Finalized(reg.counts, vobject)
    {
      if vobject.Some? {
        reg.Unref(vobject.value);
      }
    }

    /** get_object() */
    function GetObject(): (p: Pointer)
      reads this
      ensures p == vobject
    {
      vobject
    }

    /** is_null() */
    predicate IsNull()
      reads this
      ensures IsNull() <==> GetObject() == None
    {
      vobject == None
    }
  }

  /** Copying a handle and destroying the copy leaves the original and every count as they were. */
  method CopyThenDestroy(reg: Registry, a: VObject)
    requires Live(reg.counts, a.vobject)
    modifies reg
    ensures a.vobject == old(a.vobject)
    ensures reg.counts == old(reg.counts) && reg.released == old(reg.released)
  {
    var b := new VObject.Copy(reg, a);
    b.Destroy(reg);
    CopyThenDestroyIsNeutral(old(reg.counts), a.vobject);
  }

  /** a = a: the handle keeps its pointer, no count changes and nothing is finalized. */
  method SelfAssign(reg: Registry, a: VObject)
    requires Live(reg.counts, a.vobject)
    modifies reg, a
    ensures a.vobject == old(a.vobject)
    ensures reg.counts == old(reg.counts) && reg.released == old(reg.released)
  {
    var _ := a.Assign(reg, a);
    SelfAssignIsNeutral(old(reg.counts), a.vobject);
  }
}
