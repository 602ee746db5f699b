# libvips C++ binding: the VObject reference-counting handle

This project models the core of the C++ binding header of libvips,
`cplusplus/include/vips/VImage8.h`: the smart pointer `VObject` that every
`VImage` is built on, and the inline `VImage` shorthands that forward to
another operation with fixed arguments (`fliphor`, `flipver`, `rot90`,
`rot180`, `rot270`, `median`).

`VObject` holds one `VipsObject` pointer, possibly NULL, and ties the
object's lifetime to its own lifecycle through GObject reference counting:

- `VObject(p, steal)` adds a reference only for `NOSTEAL` and a non-null
  `p`; with `STEAL` (the default) it adopts the caller's reference;
- `VObject()` is a null handle and changes no count;
- the copy constructor adds one reference when the pointer is non-null;
- `x = a` references `a`'s object first and only then releases `x`'s old
  object, so that `a = a` never drops the last reference;
- the destructor releases the held reference when the pointer is non-null.

Files and modules:

- `wrappers.dfy` (`Wrappers`): `Option`, used for NULL pointers.
- `gobject.dfy` (`GObjectRefs`): the object system's reference counts as a
  map from object identity to count, `g_object_ref` / `g_object_unref` as
  `AddRef` / `DropRef` (both allowed only on a live object), and a
  `Registry` class holding the shared counts that the handle methods update
  in place, with a ghost record of the objects finalized so far.
- `vobject.dfy` (`VObjectLifecycle`): one function per lifecycle event
  giving its exact effect on the counts, the class `VObject` whose
  constructors and methods are proved to have that effect, and lemmas and
  client methods for self-assignment and copy-then-destroy.
- `ownership.dfy` (`HandleOwnership`): the whole-program view. A `World`
  is a list of live handles, the counts, and the references held by code
  outside the handles. `Accounted` states that each count equals the
  outside references plus the number of handles holding the object. Every
  lifecycle event keeps this, so an object held by a handle is never
  finalized, and no count is left over once the last handle is gone.
- `vimage_helpers.dfy` (`VImageHelpers`): the forwarding shorthands, each
  modelled by the call it makes.

The calls into the C library (`g_object_ref`, `g_object_unref`) become
operations on the count map, which is passed as a `Registry` parameter to
every handle operation that calls g_object_ref or g_object_unref.

## Model

| member | source | states |
|---|---|---|
| `GObjectRefs.AddRef` | cplusplus/include/vips/VImage8.h:86-89 | g_object_ref on a live object: its count rises by one, every other count and the set of objects stay the same |
| `GObjectRefs.DropRef` | cplusplus/include/vips/VImage8.h:150-151 | g_object_unref on a live object: its count falls by one, and it stays alive exactly when it had more than one reference; other counts are unchanged |
| `GObjectRefs.RefThenUnrefRestores` | cplusplus/include/vips/VImage8.h:127-132 | a reference taken and given back leaves every count exactly as before |
| `GObjectRefs.Registry.constructor` | cplusplus/include/vips/VImage8.h:57-58 | sets up the model of the external object system that the comment names (it has no counterpart in the header): the given counts and nothing finalized |
| `GObjectRefs.Registry.Ref` | cplusplus/include/vips/VImage8.h:88 | updates the shared counts in place by AddRef; finalizes nothing |
| `GObjectRefs.Registry.Unref` | cplusplus/include/vips/VImage8.h:151 | updates the shared counts in place by DropRef; the object is recorded as finalized exactly when its count reaches zero |
| `VObjectLifecycle.ConstructEffect` | cplusplus/include/vips/VImage8.h:67-90 | construction changes only the pointed-to object's count, by one for NOSTEAL with a non-null pointer and by nothing for STEAL or NULL |
| `VObjectLifecycle.CopyEffect` | cplusplus/include/vips/VImage8.h:98-111 | copying adds one reference to the held object when the pointer is non-null and changes nothing else; that object stays alive |
| `VObjectLifecycle.AssignEffect` | cplusplus/include/vips/VImage8.h:114-136 | x = a adds one to a's object and takes one from x's old object, each only when non-null, so the same object on both sides nets zero; a's object is alive afterwards |
| `VObjectLifecycle.DestroyEffect` | cplusplus/include/vips/VImage8.h:140-152 | destruction takes one reference from the held object when non-null; every other object's count is unaffected |
| `VObjectLifecycle.SelfAssignIsNeutral` | cplusplus/include/vips/VImage8.h:127-132 | a = a leaves every count exactly as it was |
| `VObjectLifecycle.CopyThenDestroyIsNeutral` | cplusplus/include/vips/VImage8.h:98-152 | copying a handle and destroying the copy leaves every count exactly as it was |
| `VObjectLifecycle.UnrefFirstBreaksSelfAssign` | cplusplus/include/vips/VImage8.h:127-132 | the reverse order (release the old target, then reference the source) on a = a with a single reference finalizes the object and then references a dead one, while the order used keeps it alive with its count unchanged |
| `VObjectLifecycle.OrdersAgreeUnlessSourceDies` | cplusplus/include/vips/VImage8.h:127-132 | the two orders give the same counts in every other case, so the order matters only for self-assignment of a last reference |
| `VObjectLifecycle.VObject.constructor` | cplusplus/include/vips/VImage8.h:67-90 | the handle holds the given pointer (STEAL by default) and the counts change by ConstructEffect; nothing is finalized |
| `VObjectLifecycle.VObject.Null` | cplusplus/include/vips/VImage8.h:92-95 | the default constructor gives a null handle and touches no count |
| `VObjectLifecycle.VObject.Copy` | cplusplus/include/vips/VImage8.h:98-111 | the new handle holds the source's pointer and the counts change by CopyEffect; nothing is finalized |
| `VObjectLifecycle.VObject.Assign` | cplusplus/include/vips/VImage8.h:114-136 | afterwards the handle holds a's pointer, a keeps it, the counts change by AssignEffect, and the only object that can be finalized is the old target, never when it is also the source; it returns the handle itself |
| `VObjectLifecycle.VObject.Destroy` | cplusplus/include/vips/VImage8.h:140-152 | the counts change by DestroyEffect and only the held object can be finalized, exactly when its count reaches zero |
| `VObjectLifecycle.VObject.GetObject` | cplusplus/include/vips/VImage8.h:154-160 | returns the held pointer, NULL included |
| `VObjectLifecycle.VObject.IsNull` | cplusplus/include/vips/VImage8.h:162-165 | true exactly when the held pointer is NULL |
| `VObjectLifecycle.CopyThenDestroy` | cplusplus/include/vips/VImage8.h:98-152 | run on the class: copy a handle, destroy the copy; the original's pointer, every count and the finalized set are as before |
| `VObjectLifecycle.SelfAssign` | cplusplus/include/vips/VImage8.h:114-136 | run on the class: a = a keeps the pointer, every count and the finalized set as before |
| `HandleOwnership.Enabled` | cplusplus/include/vips/VImage8.h:67-152 | what each event demands of its caller: the handles it names exist; any object it references or releases is alive; for a STEAL construction of a non-null pointer, the caller itself owns a reference (outside count above zero) that it hands over, as every STEAL use in the header hands over a reference the caller has just obtained from the C library (VImage8.h:481, 492, 507, 530, 544, 561: a new image, or, for `copy_memory` of an image already in memory, one more reference to the same image); in an accounted world, a caller owning a reference to an object may construct a handle from it with STEAL or NOSTEAL |
| `HandleOwnership.Step` | cplusplus/include/vips/VImage8.h:67-152 | the world after an event: either constructor form and the copy constructor append a handle (the given pointer, NULL, or the source's pointer); assignment overwrites the target handle with the source's pointer and leaves the others; destruction removes the handle and keeps the others in order; the counts change by the event's effect function; a STEAL construction of a non-null pointer moves one reference from the outside to the new handle, and no other event changes the outside references |
| `HandleOwnership.HeldObjectsAlive` | cplusplus/include/vips/VImage8.h:60-167 | in an accounted world, any object a handle holds is alive |
| `HandleOwnership.AccountedEnables` | cplusplus/include/vips/VImage8.h:98-152 | in an accounted world, copying, assigning and destroying existing handles never touches a finalized object |
| `HandleOwnership.AssignKeepsAccounted` | cplusplus/include/vips/VImage8.h:114-136 | assignment between two handles keeps each count equal to outside references plus holding handles |
| `HandleOwnership.DestroyKeepsAccounted` | cplusplus/include/vips/VImage8.h:140-152 | destroying a handle keeps the accounting exact |
| `HandleOwnership.StepKeepsAccounted` | cplusplus/include/vips/VImage8.h:67-152 | every lifecycle event (either constructor form, copy, assignment, destruction) keeps the accounting exact |
| `HandleOwnership.RunKeepsAccounted` | cplusplus/include/vips/VImage8.h:67-152 | any sequence of lifecycle events that runs keeps the accounting exact |
| `HandleOwnership.NoLeakWithoutHandles` | cplusplus/include/vips/VImage8.h:140-152 | once no handle is left, every count equals the references held outside the handles |
| `HandleOwnership.SelfAssignIsNoOp` | cplusplus/include/vips/VImage8.h:127-132 | a = a is always allowed and changes neither the handles nor any count |
| `HandleOwnership.CopyThenDestroyRestores` | cplusplus/include/vips/VImage8.h:98-152 | copying a handle and then destroying the copy is allowed and restores the whole world exactly |
| `VImageHelpers.FlipHor` | cplusplus/include/vips/VImage8.h:630-634 | forwards to flip on the same image with the horizontal direction |
| `VImageHelpers.FlipVer` | cplusplus/include/vips/VImage8.h:636-640 | forwards to flip on the same image with the vertical direction |
| `VImageHelpers.Rot90` | cplusplus/include/vips/VImage8.h:642-646 | forwards to rot on the same image with the 90-degree angle |
| `VImageHelpers.Rot180` | cplusplus/include/vips/VImage8.h:648-652 | forwards to rot on the same image with the 180-degree angle |
| `VImageHelpers.Rot270` | cplusplus/include/vips/VImage8.h:654-658 | forwards to rot on the same image with the 270-degree angle |
| `VImageHelpers.SquareFitsExactly` | cplusplus/include/vips/VImage8.h:675-677 | size * size fits in a C int exactly when size lies within -46340..46340, the range Median accepts |
| `VImageHelpers.Median` | cplusplus/include/vips/VImage8.h:674-678 | forwards to rank on the same image with width and height size and the index that is the floor of half of size*size |
| `VImageHelpers.MedianIndexInWindow` | cplusplus/include/vips/VImage8.h:674-678 | for any non-zero size the rank index lies inside the size-by-size window |
| `VImageHelpers.MedianIsCentre` | cplusplus/include/vips/VImage8.h:674-678 | for an odd size the rank index has as many window elements below it as above it |
| `VImageHelpers.MedianDefault` | cplusplus/include/vips/VImage8.h:675 | the default size 3 gives rank(3, 3, 4) |

## Left out

- `VOption`, the named-argument list (`VImage8.h:175-243`): only declarations appear in this header and its state lives in GLib's value system.
- The generated operations and the operator overloads (`VImage8.h:889-3451`): declarations only, each forwarding to a native operation.
- Metadata accessors and image constructors (`VImage8.h:267-584`): one-line calls into the C library whose results depend on state the model cannot see.
- The other forwarding shorthands (`dilate`, `erode`, `floor`, `ceil`, `rint`, `bandand` and the like, the `linear`/`pow`/`wop`/`bandjoin`/`ifthenelse` overloads): same shape as `fliphor`, outside the modelled core, and partly floating point.
- `g_assert(VIPS_IS_OBJECT(...))` type checks: in the constructors, assignment and destruction they are modelled only as the precondition that a non-null pointer names a live object; the accessors `GetObject` and `IsNull` drop the assert; GObject type introspection is not modelled.
- References taken or released by code outside the handles during a run (the extra reference `vips_image_copy_memory` returns, a C caller's unref after a NOSTEAL construction) are not events of `HandleOwnership`: the outside references are fixed at the start and change only when a STEAL construction hands one to a handle.
- Finalization's own releases: when the last reference goes, GObject runs dispose and finalize, which may release references the dying object holds on other objects; `DropRef`, `DestroyEffect` and `AssignEffect` change only the released object's count.
- `VIPS_DEBUG_VERBOSE` tracing: output only.
- Thread safety: GObject's counts are atomic; the model is sequential.
- Creating and finalizing native objects: the counts start from a given map; finalization is recorded, the freeing of memory is not.
- `VObjectLifecycle.VObject.Destroy`: a destroyed C++ object cannot be used again; the Dafny object survives the call, still holding its pointer, and the model relies on callers not using it afterwards (the world model in `HandleOwnership` removes it instead).
- `VImageHelpers.Median`: a `size` whose square overflows a C int (outside -46340..46340) is undefined behaviour in C++ and is excluded by the precondition.
- The forwarded operations (`flip`, `rot`, `rank`) run in the native library; the shorthands are modelled by the call they make, not by their effect on pixels.
- The `VImage` subclass constructors that forward to `VObject` (`VImage8.h:250-259`): they add nothing to `VObject`'s behaviour.
