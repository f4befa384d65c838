/**
 One metadata replica as raftmeta/node.go runs it: the loop over committed entries,
 restoring from a stored snapshot, and starting again. The methods are proved to be
 the steps of the replica runs.
 */
module RaftNode {
  import opened Bytes
  import opened Determinism
  import opened MetaData
  import opened MetaOps
  import opened MetaStore
  import opened ReplicaRuns

  class RaftNode {
    const id: nat
    var store: Client
    var appliedIndex: nat
    var stored: Option<Snapshot>
    var lastChecksum: Option<Checksum>
    ghost var restoring: bool

    ghost function View(): (r: Replica)
      reads this, store, store.cacheData
    {
      Replica(store.cacheData.Value(), appliedIndex, stored, lastChecksum, restoring)
    }

    /**
     `InitAndStartNode`: continue from the stored snapshot if there is one, else start
     from the empty metadata `init`.
     */
    constructor (id: nat, stored: Option<Snapshot>, init: Data)
      ensures this.id == id && fresh(store) && fresh(store.cacheData)
      ensures forall m: Replica :: m.stored == stored ==> View() == Restarted(init.Value(), m)
    {
      this.id, this.stored := id, stored;
      // PastLife
      var idx := match stored case None => 0 case Some(snap) => snap.index;
      appliedIndex, lastChecksum, restoring := idx, None, false;
      // restoreFromSnapshot
      var data := new Data.Clone(init);
      if stored.Some? {
        data := new Data.FromValue(stored.value.data);
      }
      store := new Client(data);
    }

    /** The part of `restoreFromSnapshot` up to the new applied index. */
    method RestoreBegin() returns (some: bool)
      modifies this
      ensures store == old(store) && some == stored.Some?
      ensures View() == if stored.None? then old(View())
                        else old(View()).(applied := stored.value.index, restoring := true)
    {
      match stored {
        case None => return false;
        case Some(snap) =>
          appliedIndex, restoring := snap.index, true;
          return true;
      }
    }

    /** The rest of it: the data is replaced. */
    method RestoreEnd()
      requires stored.Some?
      modifies this, store
      ensures store == old(store) && fresh(store.cacheData)
      ensures View() == old(View()).(data := old(stored).value.data, restoring := false)
    {
      store.cacheData := new Data.FromValue(stored.value.data);
      restoring := false;
    }

    /** `processApplyCh` on one entry. The process stops on a gap or a failed checksum. */
    method ProcessEntry(index: nat, e: Entry, now: int) returns (stopped: bool)
      modifies this, store, store.cacheData
      ensures stopped <==> index > old(appliedIndex) + 1 ||
                           (index == old(appliedIndex) + 1 && !VerifyPasses(id, old(View()), e))
      ensures View() == if stopped then old(View()) else OnEntry(old(View()), index, e, now)
    {
      hide Apply, ChecksumInput;
      if index <= appliedIndex {
        return false;
      }
      if appliedIndex != index - 1 {
        return true;
      }
      match e {
        case Command(c) => var _ := store.Execute(c, now);
        case SnapShot =>
          if stored.None? || index > stored.value.index {
            stored := Some(Snapshot(index, store.cacheData.Value()));
          }
        case CreateChecksum =>
          lastChecksum := Some(Checksum(index, ChecksumInput(store.cacheData.Value())));
        case VerifyChecksum(at, sum, node) =>
          if node != id && lastChecksum.Some? && lastChecksum.value.index == at && lastChecksum.value.sum != sum {
            return true;
          }
        case NoEffect =>
      }
      appliedIndex := index;
      return false;
    }
  }
}
