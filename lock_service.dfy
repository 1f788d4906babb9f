/** `BaseLockService`: the registry of held locks and the operations that
    fill and drain it. The coordination service's answers come in as
    arguments, and `journal` records every call the service makes into it. */
module LockService {
  import opened LockPaths
  import opened Coordination
  import opened Handles
  import opened Registry
  import opened BatchSpec
  import opened UnlockSpec

  /** What `lockBatch`'s loop keeps once it has tried `desired[..i]`:
      `granted` lists the handles made so far, in order, each once, and
      `effectivelyLocked` holds exactly those; they lock the items obtained
      so far and hold mutexes on those items' lock nodes; the registry is
      the starting one with those handles put in; and the calls made are
      the try-acquires of the items tried. */
  ghost predicate BatchInvariant(root: string, desired: seq<Lockable>, answers: seq<AcquireOutcome>, batchSize: int,
                                 i: nat, effectivelyLocked: set<LockableHandle>, granted: seq<LockableHandle>,
                                 start: Locks, locks: Locks, startCalls: seq<Call>, calls: seq<Call>)
  {
    i <= |desired| && |answers| == |desired| &&
    AttemptsFrom(desired, answers, batchSize, i) == Attempts(desired, answers, batchSize) &&
    |effectivelyLocked| == |granted| &&
    (forall h :: h in effectivelyLocked ==> h in granted) &&
    (forall h :: h in granted ==> h in effectivelyLocked && WellFormed(root, h)) &&
    LockedObjects(granted) == Obtained(desired, answers, i) &&
    locks == PutAll(start, granted) &&
    calls == startCalls + AttemptCalls(root, desired, i)
  }

  /** One turn of the loop keeps BatchInvariant: the try on `desired[i]`
      adds one call, and a handle `h` when it is granted. */
  lemma BatchStep(root: string, desired: seq<Lockable>, answers: seq<AcquireOutcome>, batchSize: int,
                  i: nat, effectivelyLocked: set<LockableHandle>, granted: seq<LockableHandle>,
                  start: Locks, locks: Locks, startCalls: seq<Call>, calls: seq<Call>,
                  h: LockableHandle?, locks': Locks, calls': seq<Call>)
    requires BatchInvariant(root, desired, answers, batchSize, i, effectivelyLocked, granted, start, locks, startCalls, calls)
    requires i < |desired| && |granted| <= batchSize
    requires calls' == calls + [Acquire(LockNode(root, desired[i].id))]
    requires answers[i] == Granted ==>
      h != null && h !in granted && h.lockedObject == desired[i] && WellFormed(root, h) && locks' == locks[h.Id() := h]
    requires answers[i] != Granted ==> h == null && locks' == locks
    ensures h == null ==>
      BatchInvariant(root, desired, answers, batchSize, i + 1, effectivelyLocked, granted, start, locks', startCalls, calls')
    ensures h != null ==>
      BatchInvariant(root, desired, answers, batchSize, i + 1, effectivelyLocked + {h}, granted + [h], start, locks', startCalls, calls')
  {
    if h != null {
      assert (granted + [h])[..|granted|] == granted;
    }
  }

  /** When the loop stops, the handles made lock exactly the batch's result
      and the calls made are those of the items it tried. */
  lemma BatchDone(root: string, desired: seq<Lockable>, answers: seq<AcquireOutcome>, batchSize: int,
                  i: nat, effectivelyLocked: set<LockableHandle>, granted: seq<LockableHandle>,
                  start: Locks, locks: Locks, startCalls: seq<Call>, calls: seq<Call>)
    requires BatchInvariant(root, desired, answers, batchSize, i, effectivelyLocked, granted, start, locks, startCalls, calls)
    requires !(i < |desired| && |effectivelyLocked| <= batchSize)
    ensures LockedObjects(granted) == BatchResult(desired, answers, batchSize)
    ensures calls == startCalls + AttemptCalls(root, desired, Attempts(desired, answers, batchSize))
  {
  }

  /** Each handle a `lockBatch` call returns holds a mutex on the very node
      that call tried to acquire, with a granted answer, for the handle's
      item; so `unlock` later releases and deletes that same node. */
  lemma GrantedHandleNode(root: string, desired: seq<Lockable>, answers: seq<AcquireOutcome>, batchSize: int,
                          granted: seq<LockableHandle>, k: nat)
    requires |answers| == |desired| && k < |granted|
    requires LockedObjects(granted) == BatchResult(desired, answers, batchSize)
    requires forall h :: h in granted ==> WellFormed(root, h)
    ensures granted[k].mutex != null
    ensures var n := Attempts(desired, answers, batchSize);
      |AttemptCalls(root, desired, n)| == n &&
      exists j :: 0 <= j < n && answers[j] == Granted && desired[j] == granted[k].lockedObject &&
        AttemptCalls(root, desired, n)[j] == Acquire(granted[k].mutex.node)
  {
    var n := Attempts(desired, answers, batchSize);
    var h := granted[k];
    LockedObjectsAt(granted, k);
    ObtainedMembers(desired, answers, n, h.lockedObject);
    AttemptCallsInOrder(root, desired, n);
    assert h in granted;
  }

  /** What `unlockAll(lockHandles)`'s loop keeps once it has unlocked
      `hs[..i]`: their ids are gone from the registry and their unlocks'
      calls follow those made before. */
  ghost predicate UnlockedPrefix(root: string, start: Locks, startCalls: seq<Call>, hs: seq<LockableHandle>,
                                 os: seq<UnlockOutcome>, i: nat, locks: Locks, calls: seq<Call>)
  {
    |os| == |hs| && i <= |hs| &&
    locks == start - IdsOf(hs[..i]) &&
    calls == startCalls + UnlockAllCalls(root, hs[..i], os[..i])
  }

  /** One turn of the loop keeps UnlockedPrefix. */
  lemma UnlockAllStep(root: string, start: Locks, startCalls: seq<Call>, hs: seq<LockableHandle>,
                      os: seq<UnlockOutcome>, i: nat, locks: Locks, calls: seq<Call>, locks': Locks, calls': seq<Call>)
    requires UnlockedPrefix(root, start, startCalls, hs, os, i, locks, calls) && i < |hs|
    requires locks' == locks - {hs[i].Id()} && calls' == calls + UnlockCalls(root, hs[i], os[i])
    ensures UnlockedPrefix(root, start, startCalls, hs, os, i + 1, locks', calls')
  {
    RemoveIdsPrefix(start, hs, i);
    UnlockAllCallsPrefix(root, hs, os, i);
    assert calls' == startCalls + (UnlockAllCalls(root, hs[..i], os[..i]) + UnlockCalls(root, hs[i], os[i]));
  }

  /** When every handle is unlocked, the registry has lost all their ids and
      the calls are those of the whole `unlockAll`. */
  lemma UnlockAllDone(root: string, start: Locks, startCalls: seq<Call>, hs: seq<LockableHandle>,
                      os: seq<UnlockOutcome>, locks: Locks, calls: seq<Call>)
    requires UnlockedPrefix(root, start, startCalls, hs, os, |hs|, locks, calls)
    ensures locks == start - IdsOf(hs) && calls == startCalls + UnlockAllCalls(root, hs, os)
  {
    assert hs[..|hs|] == hs;
    assert os[..|os|] == os;
  }

  class BaseLockService {
    /** `getLockPath()`: the namespace root of this service's locks. */
    const root: string
    /** Whether `init()` has run; before it the registry is null. */
    var initialized: bool
    /** The registry `locks`: each held lock's handle, filed under its id. */
    var locks: map<Int32, LockableHandle>
    /** The calls made into the coordination service, oldest first. */
    ghost var journal: seq<Call>

    /** The registry invariant: initialised, every entry filed under its own
        id, and every handle holding a mutex on its id's lock node. */
    ghost predicate Valid()
      reads this
    {
      initialized && Registered(root, locks)
    }

    /** A service over the namespace `root`, not yet initialised. */
    constructor (root: string)
      ensures this.root == root && !initialized && locks == map[] && journal == []
    {
      this.root := root;
      initialized := false;
      locks := map[];
      journal := [];
    }

    /** `FileLockingService`: the service over `/myApp/files`. */
    constructor FileLocking()
      ensures root == FileLockRoot && !initialized && locks == map[] && journal == []
    {
      root := FileLockRoot;
      initialized := false;
      locks := map[];
      journal := [];
    }

    /** `init()`: a fresh, empty registry (connecting the client is not modelled). */
    method Init()
      modifies this
      ensures Valid() && locks == map[] && journal == old(journal)
    {
      initialized := true;
      locks := map[];
    }

    /** `lockBatch(desiredLock, batchSize)`. `answers[j]` is what the
        coordination service answers when `desired[j]` is tried; `granted`
        lists the new handles in the order they were made. */
    method LockBatch(desired: seq<Lockable>, batchSize: Int32, answers: seq<AcquireOutcome>)
      returns (effectivelyLocked: set<LockableHandle>, ghost granted: seq<LockableHandle>)
      requires Valid() && |answers| == |desired|
      modifies this
      ensures Valid()
      ensures |effectivelyLocked| == |granted| && forall h :: h in effectivelyLocked <==> h in granted
      ensures forall h :: h in granted ==> fresh(h) && WellFormed(root, h)
      ensures LockedObjects(granted) == BatchResult(desired, answers, batchSize)
      ensures locks == PutAll(old(locks), granted)
      ensures journal == old(journal) + AttemptCalls(root, desired, Attempts(desired, answers, batchSize))
    {
      effectivelyLocked, granted := {}, [];
      var i := 0;
      while i < |desired| && |effectivelyLocked| <= batchSize
        invariant BatchInvariant(root, desired, answers, batchSize, i, effectivelyLocked, granted,
                                 old(locks), locks, old(journal), journal)
        invariant forall h :: h in granted ==> fresh(h)
        invariant initialized
      {
        ghost var locks0, journal0 := locks, journal;
        var handle := TryLock(desired[i], answers[i]);
        BatchStep(root, desired, answers, batchSize, i, effectivelyLocked, granted,
                  old(locks), locks0, old(journal), journal0, handle, locks, journal);
        if handle != null {
          effectivelyLocked := effectivelyLocked + {handle};
          granted := granted + [handle];
        }
        i := i + 1;
      }
      BatchDone(root, desired, answers, batchSize, i, effectivelyLocked, granted, old(locks), locks, old(journal), journal);
      PutAllRegistered(root, old(locks), granted);
    }

    /** One turn of `lockBatch`'s loop: build the item's lock node and a
        mutex on it, try once, and register a new handle when granted. A
        denied or throwing try changes nothing but the calls made. */
    method TryLock(toLock: Lockable, answer: AcquireOutcome) returns (handle: LockableHandle?)
      requires initialized
      modifies this
      ensures initialized
      ensures journal == old(journal) + [Acquire(LockNode(root, toLock.id))]
      ensures answer == Granted ==>
        handle != null && fresh(handle) && handle.lockedObject == toLock &&
        WellFormed(root, handle) && locks == old(locks)[handle.Id() := handle]
      ensures answer != Granted ==> handle == null && locks == old(locks)
    {
      var lockNode := LockNode(root, toLock.id);
      var lock := new Mutex(lockNode);
      journal := journal + [Acquire(lockNode)];
      handle := null;
      if answer == Granted {
        handle := new LockableHandle(toLock, lock);
        locks := locks[handle.Id() := handle];
      }
    }

    /** `unlock(lockHandle)`. `outcome` says whether `release()` and the
        delete return or throw; `success` is the flag the source logs. */
    method Unlock(h: LockableHandle, outcome: UnlockOutcome) returns (success: bool)
      requires Valid()
      modifies this
      ensures Valid()
      ensures locks == old(locks) - {h.Id()}
      ensures journal == old(journal) + UnlockCalls(root, h, outcome)
      ensures success == UnlockSucceeded(h, outcome)
    {
      success := false;
      var lock := h.mutex;
      if lock != null {
        journal := journal + [Release(lock.node)];
        if outcome.release == Returned {
          journal := journal + [Delete(LockNode(root, h.Id()))];
          success := outcome.delete == Returned;
        }
      }
      locks := locks - {h.Id()};
    }

    /** `unlockAll(lockHandles)`: one `unlock` per handle, in the collection's order. */
    method UnlockAllOf(handles: seq<LockableHandle>, outcomes: seq<UnlockOutcome>)
      requires Valid() && |outcomes| == |handles|
      modifies this
      ensures Valid()
      ensures locks == old(locks) - IdsOf(handles)
      ensures journal == old(journal) + UnlockAllCalls(root, handles, outcomes)
    {
      var i := 0;
      assert handles[..0] == [];
      while i < |handles|
        invariant UnlockedPrefix(root, old(locks), old(journal), handles, outcomes, i, locks, journal)
        invariant Valid()
      {
        ghost var locks0, journal0 := locks, journal;
        var success := Unlock(handles[i], outcomes[i]);
        UnlockAllStep(root, old(locks), old(journal), handles, outcomes, i, locks0, journal0, locks, journal);
        i := i + 1;
      }
      UnlockAllDone(root, old(locks), old(journal), handles, outcomes, locks, journal);
    }

    /** `Lists.newArrayList(locks.values())`: every registered handle once. */
    method SnapshotValues() returns (snapshot: seq<LockableHandle>)
      requires Valid()
      ensures |snapshot| == |locks|
      ensures forall h :: h in snapshot <==> h in locks.Values
      ensures forall i, j :: 0 <= i < j < |snapshot| ==> snapshot[i] != snapshot[j]
    {
      var pending := locks.Keys;
      snapshot := [];
      while pending != {}
        invariant pending <= locks.Keys
        invariant |snapshot| + |pending| == |locks|
        invariant forall i :: 0 <= i < |snapshot| ==> snapshot[i] in locks.Values && snapshot[i].Id() !in pending
        invariant forall k :: k in locks && k !in pending ==> locks[k] in snapshot
        invariant forall i, j :: 0 <= i < j < |snapshot| ==> snapshot[i] != snapshot[j]
        decreases pending
      {
        var k :| k in pending;
        snapshot := snapshot + [locks[k]];
        pending := pending - {k};
      }
    }

    /** `unlockAll()`: snapshot the registry's handles, then unlock each.
        `outcomes` holds one unlock outcome per registered handle. */
    method UnlockAll(outcomes: seq<UnlockOutcome>) returns (ghost snapshot: seq<LockableHandle>)
      requires Valid() && |outcomes| == |locks|
      modifies this
      ensures Valid() && locks == map[]
      ensures |snapshot| == |old(locks)| && forall h :: h in snapshot <==> h in old(locks).Values
      ensures forall i, j :: 0 <= i < j < |snapshot| ==> snapshot[i] != snapshot[j]
      ensures journal == old(journal) + UnlockAllCalls(root, snapshot, outcomes)
    {
      var values := SnapshotValues();
      snapshot := values;
      RemovingAllValuesEmpties(locks, values);
      UnlockAllOf(values, outcomes);
    }

    /** `destroy()`: unlock everything, then close the client. */
    method Destroy(outcomes: seq<UnlockOutcome>) returns (ghost snapshot: seq<LockableHandle>)
      requires Valid() && |outcomes| == |locks|
      modifies this
      ensures Valid() && locks == map[]
      ensures |snapshot| == |old(locks)| && forall h :: h in snapshot <==> h in old(locks).Values
      ensures journal == old(journal) + UnlockAllCalls(root, snapshot, outcomes) + [Close]
    {
      snapshot := UnlockAll(outcomes);
      journal := journal + [Close];
    }
  }

  /** The file-locking service locks id 5 and unlocks it again, with
      ZooKeeper granting the lock and the release and delete returning:
      the unlock reports success, the registry no longer holds id 5, and the
      calls made are an acquire, a release and a delete, all on
      `/myApp/files/5`. */
  method FileLockScenario() returns (service: BaseLockService, node: LockNode, success: bool)
    ensures LockPath(node) == "/myApp/files/5"
    ensures success
    ensures service.Valid() && 5 !in service.locks
    ensures service.journal == [Acquire(node), Release(node), Delete(node)]
  {
    service := new BaseLockService.FileLocking();
    service.Init();
    var desired, answers := [Lockable(5)], [Granted];
    var locked, granted := service.LockBatch(desired, 0, answers);
    OvershootByOne(desired, answers, 0);
    SizeBound(desired, answers, 0);
    LockedObjectsAt(granted, 0);
    assert granted[0] in locked;
    var h :| h in locked;
    assert h == granted[0];
    node := LockNode(FileLockRoot, 5);
    FileLockPathOfFive();
    success := service.Unlock(h, UnlockOutcome(Returned, Returned));
  }
}
