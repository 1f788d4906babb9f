/** What `lockBatch` does, as functions of its inputs and of the answers the
    coordination service gives: which items it tries, in which order, when it
    stops, and which items it ends up holding. */
module BatchSpec {
  import opened LockPaths
  import opened Coordination
  import opened Handles

  /** The items of `desired[..k]` whose try-acquire was granted, in list order.
      `answers[j]` is what the coordination service answers for `desired[j]`. */
  function Obtained(desired: seq<Lockable>, answers: seq<AcquireOutcome>, k: nat): seq<Lockable>
    requires k <= |desired| && |answers| == |desired|
  {
    if k == 0 then []
    else Obtained(desired, answers, k - 1) + (if answers[k - 1] == Granted then [desired[k - 1]] else [])
  }

  /** The number of items tried, counting from the `k`-th: the loop goes on
      while an item is left and no more than `batchSize` have been obtained. */
  function AttemptsFrom(desired: seq<Lockable>, answers: seq<AcquireOutcome>, batchSize: int, k: nat): (n: nat)
    requires k <= |desired| && |answers| == |desired|
    ensures k <= n <= |desired|
    decreases |desired| - k
  {
    if k < |desired| && |Obtained(desired, answers, k)| <= batchSize then AttemptsFrom(desired, answers, batchSize, k + 1)
    else k
  }

  /** The number of items one `lockBatch` call tries. */
  function Attempts(desired: seq<Lockable>, answers: seq<AcquireOutcome>, batchSize: int): (n: nat)
    requires |answers| == |desired|
    ensures n <= |desired|
  {
    AttemptsFrom(desired, answers, batchSize, 0)
  }

  /** The items one `lockBatch` call returns handles for. */
  function BatchResult(desired: seq<Lockable>, answers: seq<AcquireOutcome>, batchSize: int): seq<Lockable>
    requires |answers| == |desired|
  {
    Obtained(desired, answers, Attempts(desired, answers, batchSize))
  }

  /** The calls into the coordination service made by trying `desired[..k]`:
      one mutex and one try-acquire per item, on that item's lock node. */
  function AttemptCalls(root: string, desired: seq<Lockable>, k: nat): seq<Call>
    requires k <= |desired|
  {
    if k == 0 then [] else AttemptCalls(root, desired, k - 1) + [Acquire(LockNode(root, desired[k - 1].id))]
  }

  /** At most one handle per item tried. */
  lemma {:induction false} ObtainedLength(desired: seq<Lockable>, answers: seq<AcquireOutcome>, k: nat)
    requires k <= |desired| && |answers| == |desired|
    ensures |Obtained(desired, answers, k)| <= k
  {
    if k > 0 {
      ObtainedLength(desired, answers, k - 1);
    }
  }

  /** An item is obtained exactly when it sits at a tried position whose
      try-acquire was granted; denied and throwing attempts add nothing. */
  lemma {:induction false} ObtainedMembers(desired: seq<Lockable>, answers: seq<AcquireOutcome>, k: nat, x: Lockable)
    requires k <= |desired| && |answers| == |desired|
    ensures x in Obtained(desired, answers, k) <==> exists j :: 0 <= j < k && answers[j] == Granted && desired[j] == x
  {
    if k > 0 {
      ObtainedMembers(desired, answers, k - 1, x);
    }
  }

  lemma {:induction false} AttemptsFromStops(desired: seq<Lockable>, answers: seq<AcquireOutcome>, batchSize: int, k: nat)
    requires k <= |desired| && |answers| == |desired|
    ensures var n := AttemptsFrom(desired, answers, batchSize, k);
      k <= n <= |desired| &&
      (forall j :: k <= j < n ==> |Obtained(desired, answers, j)| <= batchSize) &&
      (n == |desired| || |Obtained(desired, answers, n)| > batchSize)
    decreases |desired| - k
  {
    if k < |desired| && |Obtained(desired, answers, k)| <= batchSize {
      AttemptsFromStops(desired, answers, batchSize, k + 1);
    }
  }

  /** Items are tried in list order, each while no more than `batchSize` items
      have been obtained, and trying stops at the first point where the list
      is used up or more than `batchSize` items are held. */
  lemma AttemptsStopAtCap(desired: seq<Lockable>, answers: seq<AcquireOutcome>, batchSize: int)
    requires |answers| == |desired|
    ensures var n := Attempts(desired, answers, batchSize);
      n <= |desired| &&
      (forall j :: 0 <= j < n ==> |Obtained(desired, answers, j)| <= batchSize) &&
      (n == |desired| || |Obtained(desired, answers, n)| > batchSize)
  {
    AttemptsFromStops(desired, answers, batchSize, 0);
  }

  /** The size bound: never more handles than items, a negative batch size
      tries nothing, and otherwise the inclusive check lets at most
      `batchSize + 1` handles through. */
  lemma SizeBound(desired: seq<Lockable>, answers: seq<AcquireOutcome>, batchSize: int)
    requires |answers| == |desired|
    ensures |BatchResult(desired, answers, batchSize)| <= Attempts(desired, answers, batchSize) <= |desired|
    ensures batchSize < 0 ==> Attempts(desired, answers, batchSize) == 0 && BatchResult(desired, answers, batchSize) == []
    ensures |BatchResult(desired, answers, batchSize)| <= batchSize + 1 || batchSize < 0
  {
    var n := Attempts(desired, answers, batchSize);
    AttemptsStopAtCap(desired, answers, batchSize);
    ObtainedLength(desired, answers, n);
    if n > 0 {
      assert |Obtained(desired, answers, n - 1)| <= batchSize;
    }
  }

  lemma {:induction false} AllGrantedObtainsAll(desired: seq<Lockable>, answers: seq<AcquireOutcome>, k: nat)
    requires k <= |desired| && |answers| == |desired|
    requires forall j :: 0 <= j < |answers| ==> answers[j] == Granted
    ensures Obtained(desired, answers, k) == desired[..k]
  {
    if k > 0 {
      AllGrantedObtainsAll(desired, answers, k - 1);
      assert desired[..k] == desired[..k - 1] + [desired[k - 1]];
    }
  }

  /** The cap is overshot: when every try-acquire succeeds and the list is
      long enough, `lockBatch` returns `batchSize + 1` handles, the first
      `batchSize + 1` items of the list. */
  lemma OvershootByOne(desired: seq<Lockable>, answers: seq<AcquireOutcome>, batchSize: int)
    requires |answers| == |desired|
    requires 0 <= batchSize && batchSize + 1 <= |desired|
    requires forall j :: 0 <= j < |answers| ==> answers[j] == Granted
    ensures BatchResult(desired, answers, batchSize) == desired[..batchSize + 1]
  {
    var n := Attempts(desired, answers, batchSize);
    AttemptsStopAtCap(desired, answers, batchSize);
    if n < batchSize + 1 {
      AllGrantedObtainsAll(desired, answers, n);
      assert false;
    }
    if n > batchSize + 1 {
      AllGrantedObtainsAll(desired, answers, batchSize + 1);
      assert false;
    }
    AllGrantedObtainsAll(desired, answers, n);
  }

  /** The scenario ids [1, 2, 3] with batch size 2 and nothing locked
      elsewhere: all three ids are locked. */
  lemma ThreeIdsBatchOfTwo()
    ensures BatchResult([Lockable(1), Lockable(2), Lockable(3)], [Granted, Granted, Granted], 2)
         == [Lockable(1), Lockable(2), Lockable(3)]
  {
    OvershootByOne([Lockable(1), Lockable(2), Lockable(3)], [Granted, Granted, Granted], 2);
  }

  /** If the coordination service grants no lock that another process holds,
      no returned item's lock path is held elsewhere. */
  lemma NoSpuriousSuccess(root: string, desired: seq<Lockable>, answers: seq<AcquireOutcome>, batchSize: int,
                          heldElsewhere: set<string>)
    requires |answers| == |desired|
    requires forall j :: 0 <= j < |desired| && answers[j] == Granted ==> LockPath(LockNode(root, desired[j].id)) !in heldElsewhere
    ensures forall x :: x in BatchResult(desired, answers, batchSize) ==> LockPath(LockNode(root, x.id)) !in heldElsewhere
  {
    var n := Attempts(desired, answers, batchSize);
    forall x | x in BatchResult(desired, answers, batchSize)
      ensures LockPath(LockNode(root, x.id)) !in heldElsewhere
    {
      ObtainedMembers(desired, answers, n, x);
    }
  }

  /** The `j`-th call of a batch is the try-acquire on the `j`-th item's lock node:
      items are tried in list order, each exactly once. */
  lemma {:induction false} AttemptCallsInOrder(root: string, desired: seq<Lockable>, k: nat)
    requires k <= |desired|
    ensures |AttemptCalls(root, desired, k)| == k
    ensures forall j :: 0 <= j < k ==> AttemptCalls(root, desired, k)[j] == Acquire(LockNode(root, desired[j].id))
  {
    if k > 0 {
      AttemptCallsInOrder(root, desired, k - 1);
      var front := AttemptCalls(root, desired, k - 1);
      assert AttemptCalls(root, desired, k) == front + [Acquire(LockNode(root, desired[k - 1].id))];
      forall j | 0 <= j < k - 1
        ensures AttemptCalls(root, desired, k)[j] == front[j]
      {
      }
    }
  }
}
