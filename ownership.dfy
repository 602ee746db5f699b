/**
  The ownership discipline that VObject's reference counting keeps, stated
  over a whole program state: a set of live handles (C++ VObject values)
  and the shared counts.  Every handle that holds an object owns exactly
  one of its references; the remaining references are owned by code
  outside the handles (the creator of a fresh object, a C caller).  Every
  lifecycle event keeps that accounting exact, so no object is finalized
  while a handle still holds it and none leaks once all handles are gone.
 */
module HandleOwnership {
  import opened Wrappers
  import opened GObjectRefs
  import opened VObjectLifecycle

  /** The live handles, in creation order, the counts, and the references held outside the handles. */
  datatype World = World(counts: Counts, handles: seq<Pointer>, outside: map<ObjId, nat>)

  /** The number of handles in hs that hold object id. */
  function Held(hs: seq<Pointer>, id: ObjId): nat
  {
    if hs == [] then 0 else Held(hs[..|hs| - 1], id) + Holds(hs[|hs| - 1], id)
  }

  /** Each count is the references held outside plus one per handle holding the object. */
  predicate Accounted(w: World)
  {
    && w.counts.Keys == w.outside.Keys
    && (forall i :: 0 <= i < |w.handles| && w.handles[i].Some? ==> w.handles[i].value in w.counts)
    && (forall id :: id in w.counts ==> w.counts[id] == w.outside[id] + Held(w.handles, id))
  }

  /** One lifecycle event; handles are named by their position in World.handles. */
  datatype Event =
    | Construct(p: Pointer, steal: VSteal)  // VObject(p, steal)
    | ConstructNull                         // VObject()
    | CopyOf(src: nat)                      // VObject(handles[src])
    | AssignTo(dst: nat, src: nat)          // handles[dst] = handles[src]
    | Destroy(victim: nat)                  // ~VObject() of handles[victim]

  /**
    What each event demands: the handles it names exist and the objects it
    touches are live; for STEAL, the caller must own the reference it hands over.
    In an accounted world a caller that owns a reference may construct a
    handle from it in either mode.
   */
  predicate Enabled(w: World, e: Event)
    ensures (Accounted(w) && e.Construct? && e.p.Some? && e.p.value in w.outside &&
             w.outside[e.p.value] > 0) ==> Enabled(w, e)
  {
    match e
    case Construct(p, steal) =>
      Live(w.counts, p) && (steal == Steal && p.Some? ==> p.value in w.outside && w.outside[p.value] > 0)
    case ConstructNull => true
    case CopyOf(i) => i < |w.handles| && Live(w.counts, w.handles[i])
    case AssignTo(d, s) =>
      d < |w.handles| && s < |w.handles| && Live(w.counts, w.handles[s]) && Live(w.counts, w.handles[d])
    case Destroy(i) => i < |w.handles| && Live(w.counts, w.handles[i])
  }

  /**
    The world after an event: construction and copy add a handle, assignment
    overwrites one, destruction removes one, and the counts change by the
    event's effect.  A STEAL construction of a non-null pointer moves one
    reference from the outside to the new handle.
   */
  function Step(w: World, e: Event): (r: World)
    requires Enabled(w, e)
    ensures r.counts.Keys == w.counts.Keys && r.outside.Keys == w.outside.Keys
    ensures e.Construct? && e.steal == Steal && e.p.Some? ==>
              r.outside == w.outside[e.p.value := w.outside[e.p.value] - 1]
    ensures !(e.Construct? && e.steal == Steal && e.p.Some?) ==> r.outside == w.outside
    ensures e.Construct? || e.ConstructNull? || e.CopyOf? ==>
              |r.handles| == |w.handles| + 1 && r.handles[..|w.handles|] == w.handles
    ensures e.Construct? ==> r.handles[|w.handles|] == e.p
    ensures e.ConstructNull? ==> r.handles[|w.handles|] == None
    ensures e.CopyOf? ==> r.handles[|w.handles|] == w.handles[e.src]
    ensures e.AssignTo? ==> |r.handles| == |w.handles| && r.handles[e.dst] == w.handles[e.src]
    ensures e.AssignTo? ==> forall j :: 0 <= j < |w.handles| && j != e.dst ==> r.handles[j] == w.handles[j]
    ensures e.Destroy? ==> |r.handles| == |w.handles| - 1
    ensures e.Destroy? ==> forall j :: 0 <= j < |r.handles| ==>
              r.handles[j] == w.handles[if j < e.victim then j else j + 1]
  {
    match e
    case Construct(p, steal) =>
      var outside := if steal == Steal && p.Some? then w.outside[p.value := w.outside[p.value] - 1] else w.outside;
      World(ConstructEffect(w.counts, p, steal), w.handles + [p], outside)
    case ConstructNull =>
      World(w.counts, w.handles + [None], w.outside)
    case CopyOf(i) =>
      World(CopyEffect(w.counts, w.handles[i]), w.handles + [w.handles[i]], w.outside)
    case AssignTo(d, s) =>
      World(AssignEffect(w.counts, w.handles[s], w.handles[d]), w.handles[d := w.handles[s]], w.outside)
    case Destroy(i) =>
      World(DestroyEffect(w.counts, w.handles[i]), w.handles[..i] + w.handles[i + 1..], w.outside)
  }

  /** Runs the events in order; None when some event is not enabled. */
  function Run(w: World, es: seq<Event>): Option<World>
    decreases |es|
  {
    if es == [] then Some(w)
    else if Enabled(w, es[0]) then Run(Step(w, es[0]), es[1..])
    else None
  }

  lemma {:induction false} HeldConcat(a: seq<Pointer>, b: seq<Pointer>, id: ObjId)
    ensures Held(a + b, id) == Held(a, id) + Held(b, id)
  {
    if b == [] {
      assert a + b == a;
    } else {
      var n := |b| - 1;
      assert (a + b)[..|a + b| - 1] == a + b[..n];
      HeldConcat(a, b[..n], id);
    }
  }

  lemma HeldOne(p: Pointer, id: ObjId)
    ensures Held([p], id) == Holds(p, id)
  {
    assert [p][..0] == [];
  }

  /** Held splits around position i. */
  lemma HeldAround(hs: seq<Pointer>, i: nat, id: ObjId)
    requires i < |hs|
    ensures Held(hs, id) == Held(hs[..i], id) + Holds(hs[i], id) + Held(hs[i + 1..], id)
  {
    assert hs == hs[..i] + [hs[i]] + hs[i + 1..];
    HeldConcat(hs[..i] + [hs[i]], hs[i + 1..], id);
    HeldConcat(hs[..i], [hs[i]], id);
    HeldOne(hs[i], id);
  }

  lemma HeldAppend(hs: seq<Pointer>, p: Pointer, id: ObjId)
    ensures Held(hs + [p], id) == Held(hs, id) + Holds(p, id)
  {
    HeldConcat(hs, [p], id);
    HeldOne(p, id);
  }

  lemma HeldUpdate(hs: seq<Pointer>, i: nat, p: Pointer, id: ObjId)
    requires i < |hs|
    ensures Held(hs[i := p], id) == Held(hs, id) - Holds(hs[i], id) + Holds(p, id)
  {
    var hs' := hs[i := p];
    HeldAround(hs, i, id);
    HeldAround(hs', i, id);
    assert hs'[..i] == hs[..i] && hs'[i + 1..] == hs[i + 1..];
  }

  lemma HeldRemove(hs: seq<Pointer>, i: nat, id: ObjId)
    requires i < |hs|
    ensures Held(hs[..i] + hs[i + 1..], id) == Held(hs, id) - Holds(hs[i], id)
  {
    HeldAround(hs, i, id);
    HeldConcat(hs[..i], hs[i + 1..], id);
  }

  /** No object is finalized while a handle holds it. */
  lemma HeldObjectsAlive(w: World, i: nat)
    requires Accounted(w) && i < |w.handles|
    ensures Live(w.counts, w.handles[i])
  {
    if w.handles[i].Some? {
      var id := w.handles[i].value;
      HeldAround(w.handles, i, id);
    }
  }

  /** In an accounted world every copy, assignment and destruction of an existing handle is allowed. */
  lemma AccountedEnables(w: World, e: Event)
    requires Accounted(w)
    requires e.CopyOf? || e.AssignTo? || e.Destroy?
    requires e.CopyOf? ==> e.src < |w.handles|
    requires e.AssignTo? ==> e.dst < |w.handles| && e.src < |w.handles|
    requires e.Destroy? ==> e.victim < |w.handles|
    ensures Enabled(w, e)
  {
    match e
    case CopyOf(i) => HeldObjectsAlive(w, i);
    case AssignTo(d, s) => HeldObjectsAlive(w, d); HeldObjectsAlive(w, s);
    case Destroy(i) => HeldObjectsAlive(w, i);
  }

  /**
    A new handle holding p keeps the accounting when, for every object, the
    count grows by what the new handle holds less what the outside gave up.
   */
  lemma AppendKeepsAccounted(w: World, w': World, p: Pointer)
    requires Accounted(w)
    requires w'.handles == w.handles + [p]
    requires w'.counts.Keys == w.counts.Keys && w'.outside.Keys == w.outside.Keys
    requires Live(w.counts, p)
    requires forall id :: id in w.counts ==>
               w'.counts[id] + w.outside[id] == w.counts[id] + w'.outside[id] + Holds(p, id)
    ensures Accounted(w')
  {
    forall id | id in w'.counts
      ensures w'.counts[id] == w'.outside[id] + Held(w'.handles, id)
    {
      HeldAppend(w.handles, p, id);
    }
  }

  lemma AssignKeepsAccounted(w: World, d: nat, s: nat)
    requires Accounted(w) && Enabled(w, AssignTo(d, s))
    ensures Accounted(Step(w, AssignTo(d, s)))
  {
    var w' := Step(w, AssignTo(d, s));
    forall id | id in w'.counts
      ensures w'.counts[id] == w'.outside[id] + Held(w'.handles, id)
    {
      HeldUpdate(w.handles, d, w.handles[s], id);
    }
  }

  lemma DestroyKeepsAccounted(w: World, i: nat)
    requires Accounted(w) && Enabled(w, Destroy(i))
    ensures Accounted(Step(w, Destroy(i)))
  {
    var w' := Step(w, Destroy(i));
    assert forall j :: 0 <= j < |w'.handles| ==> w'.handles[j] == w.handles[if j < i then j else j + 1];
    forall id | id in w'.counts
      ensures w'.counts[id] == w'.outside[id] + Held(w'.handles, id)
    {
      HeldRemove(w.handles, i, id);
    }
  }

  /** Every lifecycle event keeps the accounting exact. */
  lemma StepKeepsAccounted(w: World, e: Event)
    requires Accounted(w) && Enabled(w, e)
    ensures Accounted(Step(w, e))
  {
    match e
    case Construct(p, steal) => AppendKeepsAccounted(w, Step(w, e), p);
    case ConstructNull => AppendKeepsAccounted(w, Step(w, e), None);
    case CopyOf(i) => AppendKeepsAccounted(w, Step(w, e), w.handles[i]);
    case AssignTo(d, s) => AssignKeepsAccounted(w, d, s);
    case Destroy(i) => DestroyKeepsAccounted(w, i);
  }

  /** Any run of lifecycle events keeps the accounting exact. */
  lemma {:induction false} RunKeepsAccounted(w: World, es: seq<Event>)
    requires Accounted(w)
    ensures Run(w, es).Some? ==> Accounted(Run(w, es).value)
    decreases |es|
  {
    if es != [] && Enabled(w, es[0]) {
      StepKeepsAccounted(w, es[0]);
      RunKeepsAccounted(Step(w, es[0]), es[1..]);
    }
  }

  /** Once no handle is left, every count is back to the references held outside: nothing leaks. */
  lemma NoLeakWithoutHandles(w: World)
    requires Accounted(w) && w.handles == []
    ensures w.counts == w.outside
  {
  }

  /** a = a changes neither the handles nor any count. */
  lemma SelfAssignIsNoOp(w: World, i: nat)
    requires Accounted(w) && i < |w.handles|
    ensures Enabled(w, AssignTo(i, i)) && Step(w, AssignTo(i, i)) == w
  {
    HeldObjectsAlive(w, i);
    SelfAssignIsNeutral(w.counts, w.handles[i]);
  }

  /** Copying handle i and then destroying the copy restores the world exactly. */
  lemma CopyThenDestroyRestores(w: World, i: nat)
    requires Accounted(w) && i < |w.handles|
    ensures Enabled(w, CopyOf(i))
    ensures Enabled(Step(w, CopyOf(i)), Destroy(|w.handles|))
    ensures Step(Step(w, CopyOf(i)), Destroy(|w.handles|)) == w
  {
    HeldObjectsAlive(w, i);
    CopyThenDestroyIsNeutral(w.counts, w.handles[i]);
    var hs := w.handles + [w.handles[i]];
    assert hs[..|w.handles|] + hs[|w.handles| + 1..] == w.handles;
  }
}
