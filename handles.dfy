/** Lockable resources and the handles the service hands out for them. */
module Handles {
  import opened LockPaths
  import opened Coordination

  /** A `Lockable`: any resource with an `int` id (`FileToLock` is one). */
  datatype Lockable = Lockable(id: Int32)

  /** `BaseLockService.LockableHandle`: the locked object and its mutex. It
      does not override `equals`, so two handles are equal only when they are
      the same object; a Dafny class has exactly that identity. */
  class LockableHandle {
    const lockedObject: Lockable
    const mutex: Mutex?

    constructor (locked: Lockable, mutex: Mutex?)
      ensures lockedObject == locked && this.mutex == mutex
    {
      lockedObject := locked;
      this.mutex := mutex;
    }

    /** `getId()` delegates to the locked object. */
    function Id(): Int32
    {
      lockedObject.id
    }
  }

  /** A handle built by `lockBatch`: it has a mutex, bound to its id's lock node under `root`. */
  predicate WellFormed(root: string, h: LockableHandle)
  {
    h.mutex != null && h.mutex.node == LockNode(root, h.Id())
  }

  /** The objects locked by a sequence of handles, in the same order. */
  function LockedObjects(hs: seq<LockableHandle>): (objects: seq<Lockable>)
    ensures |objects| == |hs|

  {
    if hs == [] then [] else LockedObjects(hs[..|hs| - 1]) + [hs[|hs| - 1].lockedObject]
  }

  /** The `i`-th locked object is the `i`-th handle's. */
  lemma {:induction false} LockedObjectsAt(hs: seq<LockableHandle>, i: nat)
    requires i < |hs|
    ensures LockedObjects(hs)[i] == hs[i].lockedObject
    decreases |hs|
  {
    if i < |hs| - 1 {
      LockedObjectsAt(hs[..|hs| - 1], i);
    }
  }

  /** The ids of a collection of handles. */
  function IdsOf(hs: seq<LockableHandle>): set<Int32>
  {
    set h | h in hs :: h.Id()
  }
}
