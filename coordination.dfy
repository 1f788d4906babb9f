/** The coordination service (ZooKeeper through Curator) as the lock service
    sees it. Its behaviour is not modelled: each call's outcome is handed in
    by the caller of the model, and every call the service makes is recorded
    as a `Call` so that its order can be stated. */
module Coordination {
  import opened LockPaths

  /** What one zero-wait `InterProcessMutex.acquire(0, SECONDS)` does:
      returns true, returns false (held elsewhere), or throws. */
  datatype AcquireOutcome = Granted | Denied | Threw

  /** Whether a call that returns nothing (`release()`, `delete().forPath(...)`)
      returned normally or threw. */
  datatype CallOutcome = Returned | Raised

  /** The outcomes of the two calls one `unlock` may make. The delete outcome
      is only consulted when the release returned. */
  datatype UnlockOutcome = UnlockOutcome(release: CallOutcome, delete: CallOutcome)

  /** A call made into the coordination service: a try-acquire on a freshly
      created mutex, a release of a handle's mutex, a recursive delete of a
      lock node, or closing the client. Each names the node it acts on; the
      path string the service sees is `LockPath` of that node. */
  datatype Call = Acquire(node: LockNode) | Release(node: LockNode) | Delete(node: LockNode) | Close

  /** An `InterProcessMutex`, bound to one lock node when it is created. */
  class Mutex {
    const node: LockNode

    constructor (node: LockNode)
      ensures this.node == node
    {
      this.node := node;
    }
  }
}
