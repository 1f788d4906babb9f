# Lock service model

A model of `BaseLockService`. This is the batch lock service of the
`locking-issue` Spring application: it takes non-blocking ZooKeeper locks
(Curator `InterProcessMutex`) on a list of `Lockable` objects and keeps the
locks it holds in a local registry, `Map<Integer, LockableHandle>`.
`FileLockingService` is the concrete service. Its namespace root is
`/myApp/files`.

The model is sequential and follows the Java class's structure:

- `LockService.BaseLockService` is a class. Its `locks` field is a
  `map<Int32, LockableHandle>` that the methods update in place, as
  `put` and `remove` do.
- `LockBatch` is the same `while` loop as `lockBatch`: it walks the list
  in order while `effectivelyLocked.size() <= batchSize`.
- `Unlock`, `UnlockAll`, `Init` and `Destroy` mirror the Java methods of
  the same names; `UnlockAllOf` is the overload `unlockAll(Collection)`.
- `LockableHandle` is a class. Java compares handles by object identity,
  and a Dafny class compares the same way, so the result `HashSet` behaves
  as in Java: two handles for the same id are two elements.

ZooKeeper is not modelled. What it answers is an argument:

- `answers[j]` is the outcome of the zero-wait `acquire` on the `j`-th
  item: granted, denied, or an exception.
- `UnlockOutcome(release, delete)` says whether `release()` and the
  recursive delete returned or threw.

Every call the service makes into ZooKeeper is recorded, in order, in the
ghost field `journal`. This makes order, early stop and
"delete only after release" stateable. Examples of recorded calls:
`Acquire(node)`, `Release(node)`, `Delete(node)`, `Close`.

A lock is named by a `LockNode(root, id)`. `LockPath` renders a node as
the string `root + "/" + String.valueOf(id)`. `NodeOfPath` reads the
string back. `LockPathRoundTrip` and `LockPathInjective` prove that
rendering loses nothing, so stating calls on nodes is the same as stating
them on path strings.

`LockBatch`, `Unlock`, `UnlockAllOf`, `UnlockAll` and `Destroy` are
specified by functions in `BatchSpec`, `UnlockSpec` and `Registry`, and
the lemmas there prove what the source promises about those functions.
The methods' `ensures` tie the new state to those functions (`Init`,
`TryLock` and `SnapshotValues` state their results directly):

- `Obtained`, `Attempts` and `BatchResult` give the items `lockBatch`
  tries and the items it returns.
- `AttemptCalls` gives the calls a batch makes.
- `UnlockCalls` and `UnlockAllCalls` give the calls made by `unlock` and
  `unlockAll`.
- `PutAll` gives the registry after a sequence of `put`s.

The batch cap is inclusive (`<= batchSize`), as written in the source.
The model keeps it, and `OvershootByOne` proves that a batch can return
`batchSize + 1` handles.

## Model

| member | source | states |
|---|---|---|
| LockPaths.NatDigits | src/main/java/com/example/locking/BaseLockService.java:186 | `String.valueOf` of a non-negative id is a non-empty string of decimal digits, with no leading zero unless the id is 0 |
| LockPaths.DecimalString | src/main/java/com/example/locking/BaseLockService.java:186 | `String.valueOf(int)`: a '-' exactly for negative ids, followed by the digits of the magnitude; never empty |
| LockPaths.DecimalRoundTrip | src/main/java/com/example/locking/BaseLockService.java:186 | reading the decimal form of any id back gives that id, so distinct ids get distinct lock names |
| LockPaths.LockPath | src/main/java/com/example/locking/BaseLockService.java:186 | the path of a lock node, `root + "/" + String.valueOf(id)`, which is what `ZKPaths.makePath` builds at :186 and :156 for a root that starts with '/' and has no trailing '/' |
| LockPaths.LockPathRoundTrip | src/main/java/com/example/locking/BaseLockService.java:186 | splitting a lock path at its last '/' gives back the namespace root and the id it was built from |
| LockPaths.LockPathInjective | src/main/java/com/example/locking/BaseLockService.java:156 | two lock nodes share a path exactly when they have the same root and id, so the path deleted at :156 names the lock node made at :186 and no other |
| LockPaths.FileLockPathOfFive | src/main/java/com/example/locking/FileLockingService.java:11 | the file-locking service's lock for id 5 lives at `/myApp/files/5` |
| Handles.LockableHandle.constructor | src/main/java/com/example/locking/BaseLockService.java:231-239 | a handle keeps the locked object and the mutex it was given; its id is the locked object's id |
| Registry.PutAll | src/main/java/com/example/locking/BaseLockService.java:193 | the registry after `locks.put(handle.getId(), handle)` for each handle of a sequence, first to last |
| Registry.PutAllEffect | src/main/java/com/example/locking/BaseLockService.java:193 | after the `put`s, the keys are the old keys plus the new handles' ids; each new id maps to a handle with that id; every other entry is unchanged; entries stay filed under their own ids |
| Registry.PutAllLastWins | src/main/java/com/example/locking/BaseLockService.java:193 | when several handles with the same id are put, the last one put is the one registered |
| Registry.PutAllRegistered | src/main/java/com/example/locking/BaseLockService.java:190-193 | putting handles that hold mutexes on their own ids' nodes keeps the registry invariant |
| Registry.RemovingAllValuesEmpties | src/main/java/com/example/locking/BaseLockService.java:125-137 | removing the id of every registered handle leaves the registry empty |
| BatchSpec.Obtained | src/main/java/com/example/locking/BaseLockService.java:189-201 | the items of the first `k` tried whose acquire was granted, in list order: a denied or throwing try adds nothing |
| BatchSpec.AttemptsFrom | src/main/java/com/example/locking/BaseLockService.java:184 | the number of items tried: the loop goes on while an item is left and at most `batchSize` items have been obtained; never fewer than already tried nor more than the list has |
| BatchSpec.BatchResult | src/main/java/com/example/locking/BaseLockService.java:180-209 | the items `lockBatch` returns handles for: those obtained over all the items it tries |
| BatchSpec.AttemptCalls | src/main/java/com/example/locking/BaseLockService.java:185-190 | the calls made by trying the first `k` items: one acquire per item, in order, on that item's lock node |
| BatchSpec.ObtainedLength | src/main/java/com/example/locking/BaseLockService.java:189-193 | at most one handle is made per item tried |
| BatchSpec.ObtainedMembers | src/main/java/com/example/locking/BaseLockService.java:189-201 | an item is in the result exactly when it sits at a tried position whose acquire was granted; denied and throwing tries add nothing |
| BatchSpec.AttemptsStopAtCap | src/main/java/com/example/locking/BaseLockService.java:184 | every item tried was tried while at most `batchSize` items were held; trying stops at the end of the list or at the first point where more than `batchSize` are held |
| BatchSpec.SizeBound | src/main/java/com/example/locking/BaseLockService.java:184 | the result has no more items than were tried, and no more than the list has; a negative `batchSize` tries nothing and returns nothing; otherwise the result has at most `batchSize + 1` items |
| BatchSpec.OvershootByOne | src/main/java/com/example/locking/BaseLockService.java:184 | when every acquire is granted and the list has more than `batchSize` items, the result is exactly the first `batchSize + 1` items |
| BatchSpec.ThreeIdsBatchOfTwo | src/main/java/com/example/locking/BaseLockService.java:184 | for ids 1, 2, 3 with batch size 2 and nothing held elsewhere, all three are locked |
| BatchSpec.NoSpuriousSuccess | src/main/java/com/example/locking/BaseLockService.java:184-193 | if ZooKeeper grants no lock whose path another process holds, no returned item's path is held elsewhere |
| BatchSpec.AttemptCallsInOrder | src/main/java/com/example/locking/BaseLockService.java:182-187 | the `j`-th call of a batch is the acquire on the `j`-th item's lock node: items are tried in list order, each exactly once, and no later item is touched |
| UnlockSpec.UnlockCalls | src/main/java/com/example/locking/BaseLockService.java:150-157 | the calls one `unlock` makes: none without a mutex; otherwise a release of the mutex, then a delete of the id's lock node only if the release returned |
| UnlockSpec.UnlockSucceeded | src/main/java/com/example/locking/BaseLockService.java:148-157 | the `success` flag: a mutex was there and both the release and the delete returned |
| UnlockSpec.UnlockAllCalls | src/main/java/com/example/locking/BaseLockService.java:136 | the calls `unlockAll(lockHandles)` makes: one `unlock`'s calls per handle, in the collection's order |
| UnlockSpec.UnlockDeletesAfterRelease | src/main/java/com/example/locking/BaseLockService.java:150-158 | `unlock` deletes only as its second call and only after a release that returned. For a handle made by `lockBatch`, the delete comes right after the release of the same node. A successful unlock is exactly release-then-delete of the handle's lock node |
| UnlockSpec.UnlockAllDeletesAfterRelease | src/main/java/com/example/locking/BaseLockService.java:135-136 | across a whole `unlockAll` over handles made by `lockBatch`, every delete comes right after the release of the same node |
| UnlockSpec.OneReleasePerHandle | src/main/java/com/example/locking/BaseLockService.java:135-136 | `unlockAll` over handles that hold mutexes releases exactly one mutex per handle, in the collection's order, whatever the outcomes |
| UnlockSpec.SecondUnlockReleasesAgain | src/main/java/com/example/locking/BaseLockService.java:151-153 | unlocking the same handle twice releases its mutex twice, because `unlock` never clears the handle's mutex |
| LockService.GrantedHandleNode | src/main/java/com/example/locking/BaseLockService.java:186-193 | each returned handle holds a mutex on exactly the node that the batch acquired, with a granted answer, for that handle's item |
| LockService.BaseLockService.constructor | src/main/java/com/example/locking/BaseLockService.java:55-61 | a new service over a namespace root has no registry yet (not initialised) and has made no calls |
| LockService.BaseLockService.FileLocking | src/main/java/com/example/locking/FileLockingService.java:11-16 | the file-locking service's namespace root is `/myApp/files` |
| LockService.BaseLockService.Init | src/main/java/com/example/locking/BaseLockService.java:84-86 | `init` installs a fresh, empty registry, which satisfies the registry invariant |
| LockService.BaseLockService.LockBatch | src/main/java/com/example/locking/BaseLockService.java:180-209 | the result set holds exactly the new handles, one per granted item, each newly created; they lock exactly `BatchResult`, in list order; the registry is the old one with those handles put in; the calls made are the acquires of the tried items, in order; the registry invariant holds |
| LockService.BaseLockService.TryLock | src/main/java/com/example/locking/BaseLockService.java:185-201 | one acquire on the item's lock node. If granted, a new handle on that node is registered under the item's id. If denied or throwing, the registry and the result are unchanged |
| LockService.BaseLockService.Unlock | src/main/java/com/example/locking/BaseLockService.java:147-168 | the handle's id is removed from the registry whatever the mutex and the outcomes, and every other entry is kept; the calls are `UnlockCalls`; `success` is true exactly when a mutex was there and both the release and the delete returned |
| LockService.BaseLockService.UnlockAllOf | src/main/java/com/example/locking/BaseLockService.java:135-137 | the registry loses exactly the ids of the given handles, and the calls are those of one `unlock` per handle, in order |
| LockService.BaseLockService.SnapshotValues | src/main/java/com/example/locking/BaseLockService.java:126 | the copied list holds every registered handle exactly once and nothing else |
| LockService.BaseLockService.UnlockAll | src/main/java/com/example/locking/BaseLockService.java:125-127 | with one unlock per registered handle taken from the snapshot, the registry ends empty |
| LockService.BaseLockService.Destroy | src/main/java/com/example/locking/BaseLockService.java:113-120 | `destroy` unlocks every registered handle, then closes the client as the last call; the registry ends empty |
| LockService.FileLockScenario | src/main/java/com/example/locking/FileLockingService.java:11 | the file-locking service locks id 5 and, with every call returning, unlocks it: the unlock succeeds, id 5 leaves the registry, and the calls are acquire, release and delete, all on `/myApp/files/5` |

## Left out

- Client creation, connection, retry policy and the ZooKeeper 3.4 compatibility check (`createClient`, `start`, `blockUntilConnected`): network I/O in a library outside the model. `Init` models only the registry reset.
- The behaviour of `InterProcessMutex` and of ZooKeeper: outcomes of acquire, release and delete are arguments (`AcquireOutcome`, `UnlockOutcome`). A `release()` on an already released mutex is one such outcome (in the source it throws `IllegalMonitorStateException`, which `unlock` catches).
- `ZKPaths.makePath` is modelled as `root + "/" + id`. That is what it builds for a root that starts with '/' and has no trailing '/', such as `/myApp/files`. For other roots `makePath` adds a leading '/' or drops a trailing one; that normalisation is not modelled, although the service's constructor accepts any root.
- Concurrency: the two-thread, 300-task test and cross-process exclusion belong to ZooKeeper. The unsynchronised `HashMap` registry is racy in the source; the model is sequential.
- Logging, Spring wiring, the `@Value` configuration, the unused `lockMaxAge`, and `LockableHandle.creationDate` (wall-clock time, never read).
- LockService.BaseLockService.LockBatch: requires an initialised service, which `@PostConstruct` guarantees by running `init` before any caller. Before `init`, the null registry does not make `lockBatch` throw: the `put` at BaseLockService.java:193 is inside the `try` whose `catch` at :199 takes the `NullPointerException`. An empty list or a negative `batchSize` returns an empty set; otherwise `createMutex` (:187, :71) is handed the null client, and what that does is Curator's. None of this is modelled.
- LockService.BaseLockService.Unlock: requires an initialised service; before `init` the `locks.remove` in the `finally` at :162 throws a `NullPointerException` that escapes.
- LockService.BaseLockService.UnlockAllOf: requires an initialised service; before `init` an empty collection calls nothing (`forEach` at :136), and a non-empty one throws from the first `unlock`.
- LockService.BaseLockService.UnlockAll: requires an initialised service; before `init`, `locks.values()` at :126 throws a `NullPointerException`.
- LockService.BaseLockService.Destroy: requires an initialised service; before `init` its `unlockAll()` throws at :126, so the client is never closed.
- LockService.BaseLockService.Unlock: the source only logs `success`; the model returns it, so that it can be stated.
- LockService.BaseLockService.UnlockAllOf: a `Collection` is taken as a sequence in its iteration order. For the `HashSet` that `lockBatch` returns, that order is unspecified; the contract holds for every order.
- LockService.BaseLockService.SnapshotValues: the order of `HashMap.values()` is unspecified. The model picks registered handles in an arbitrary order and states only the contents of the copy.
- The documentation of `lockBatch` (BaseLockService.java:177-178) says items missing from the result are either locked elsewhere or in error. The model follows the code instead: items after the point where the inclusive cap at :184 stops the loop are never tried, so they are missing without being locked elsewhere or in error (`OvershootByOne`, `AttemptsStopAtCap`).
- Null references are excluded by the types: a null handle passed to `unlock`, a null element of `desiredLock` (its `getId()` at :186 throws outside the `try`), and a handle built by hand around a null locked object (its `getId()` at :238 throws).
- `Lockable.getId()` is Java's `int` (`Int32`). No arithmetic is done on ids, so no wrap-around arises.
