/** The registry `locks: Map<Integer, LockableHandle>` as a value: what
    `put` and `remove` make of it. */
module Registry {
  import opened LockPaths
  import opened Handles

  type Locks = map<Int32, LockableHandle>

  /** Every entry is filed under its own handle's id, as `locks.put(handle.getId(), handle)` does. */
  predicate KeyConsistent(m: Locks)
  {
    forall k :: k in m ==> m[k].Id() == k
  }

  /** The registry invariant of a service over `root`: entries filed under
      their own ids, each holding a mutex on its id's lock node. */
  predicate Registered(root: string, m: Locks)
  {
    KeyConsistent(m) && forall k :: k in m ==> WellFormed(root, m[k])
  }

  /** The registry after `put(h.getId(), h)` for each handle of `hs`, first to last. */
  function PutAll(m: Locks, hs: seq<LockableHandle>): Locks
  {
    if hs == [] then m else PutAll(m, hs[..|hs| - 1])[hs[|hs| - 1].Id() := hs[|hs| - 1]]
  }

  lemma IdsOfSnoc(hs: seq<LockableHandle>, h: LockableHandle)
    ensures IdsOf(hs + [h]) == IdsOf(hs) + {h.Id()}
  {
    assert forall x :: x in hs + [h] <==> x in hs || x == h;
  }

  /** Putting handles adds exactly their ids as keys, files each of those ids
      under one of the handles, and leaves every other entry as it was. */
  lemma {:induction false} PutAllEffect(m: Locks, hs: seq<LockableHandle>)
    ensures PutAll(m, hs).Keys == m.Keys + IdsOf(hs)
    ensures forall k :: k in m && k !in IdsOf(hs) ==> PutAll(m, hs)[k] == m[k]
    ensures forall k :: k in IdsOf(hs) ==> PutAll(m, hs)[k] in hs && PutAll(m, hs)[k].Id() == k
    ensures KeyConsistent(m) ==> KeyConsistent(PutAll(m, hs))
    decreases |hs|
  {
    if hs != [] {
      var front, h := hs[..|hs| - 1], hs[|hs| - 1];
      assert hs == front + [h];
      PutAllEffect(m, front);
      IdsOfSnoc(front, h);
      forall x | x in front
        ensures x in hs
      {
      }
    }
  }

  /** The last handle put for an id is the one filed under it (`HashMap.put` overwrites). */
  lemma {:induction false} PutAllLastWins(m: Locks, hs: seq<LockableHandle>, i: nat)
    requires i < |hs|
    requires forall j :: i < j < |hs| ==> hs[j].Id() != hs[i].Id()
    ensures hs[i].Id() in PutAll(m, hs) && PutAll(m, hs)[hs[i].Id()] == hs[i]
    decreases |hs|
  {
    if i < |hs| - 1 {
      PutAllLastWins(m, hs[..|hs| - 1], i);
    }
  }

  /** Putting handles built by `lockBatch` keeps the registry invariant. */
  lemma PutAllRegistered(root: string, m: Locks, hs: seq<LockableHandle>)
    requires Registered(root, m)
    requires forall h :: h in hs ==> WellFormed(root, h)
    ensures Registered(root, PutAll(m, hs))
  {
    PutAllEffect(m, hs);
  }

  /** Removing the ids of a growing prefix of a collection, one handle at a time. */
  lemma RemoveIdsPrefix(m: Locks, hs: seq<LockableHandle>, i: nat)
    requires i < |hs|
    ensures m - IdsOf(hs[..i + 1]) == (m - IdsOf(hs[..i])) - {hs[i].Id()}
  {
    assert hs[..i + 1] == hs[..i] + [hs[i]];
    IdsOfSnoc(hs[..i], hs[i]);
  }

  /** Removing the ids of a collection that holds every registered handle
      empties a key-consistent registry. */
  lemma RemovingAllValuesEmpties(m: Locks, hs: seq<LockableHandle>)
    requires KeyConsistent(m)
    requires forall k :: k in m ==> m[k] in hs
    ensures m - IdsOf(hs) == map[]
  {
    forall k | k in m
      ensures k in IdsOf(hs)
    {
      var h := m[k];
      assert h in hs && h.Id() == k;
    }
    assert (m - IdsOf(hs)).Keys == {};
  }
}
