/**
 The metadata store of services/meta/store.go: a command works on a clone of the
 cached data, and only a successful change is committed.
 */
module MetaStore {
  import opened Bytes
  import opened MetaData
  import opened MetaModel
  import opened MetaOps

  class Client {
    var cacheData: Data

    constructor (data: Data)
      ensures cacheData == data
    {
      cacheData := data;
    }

    /** `commit`: one up the index and in with the new data. */
    method Commit(data: Data)
      modifies this, data
      ensures cacheData == data && data.Value() == old(data.Value()).(index := old(data.index) + 1)
    {
      data.index := data.index + 1;
      cacheData := data;
    }

    /** `DataNodeByTCPHost`: the first node with that address. */
    static method NodeByTcpHost(nodes: seq<NodeInfo>, tcpHost: string) returns (node: Option<NodeInfo>)
      ensures node.Some? ==> node.value in nodes && node.value.tcpHost == tcpHost
      ensures node.None? ==> forall n :: n in nodes ==> n.tcpHost != tcpHost
    {
      for i := 0 to |nodes|
        invariant forall k :: 0 <= k < i ==> nodes[k].tcpHost != tcpHost
      {
        if nodes[i].tcpHost == tcpHost {
          return Some(nodes[i]);
        }
      }
      return None;
    }

    /** The node returned is the one with the address that was given. */
    method CreateDataNode(host: string, tcpHost: string) returns (err: Err, node: Option<NodeInfo>)
      modifies this, cacheData
      ensures fresh(cacheData) || cacheData == old(cacheData)
      ensures Result(cacheData.Value(), err) == Apply(old(cacheData.Value()), Cmd.CreateDataNode(host, tcpHost), 1)
      ensures err == OK <==> node.Some?
      ensures err == OK ==> node.value in cacheData.dataNodes && node.value.tcpHost == tcpHost
    {
      hide CreateNode;
      NodeErrors(cacheData.Value(), host, tcpHost);
      var id;
      node := None;
      id, err := cacheData.CreateDataNode(host, tcpHost);
      if err != OK {
        return;
      }
      node := NodeByTcpHost(cacheData.dataNodes, tcpHost);
      assert node.Some? by {
        assert NodeInfo(id, host, tcpHost) in cacheData.dataNodes;
      }
      Commit(cacheData);
    }

    method DeleteDataNode(id: nat, now: int) returns (err: Err)
      modifies this
      ensures fresh(cacheData) || cacheData == old(cacheData)
      ensures Result(cacheData.Value(), err) == Apply(old(cacheData.Value()), Cmd.DeleteDataNode(id), now)
    {
      hide DeleteNode;
      var data := new Data.Clone(cacheData);
      err := data.DeleteDataNode(id, now);
      if err != OK {
        return;
      }
      Commit(data);
    }

    method FreezeDataNode(id: nat) returns (err: Err)
      modifies this
      ensures fresh(cacheData) || cacheData == old(cacheData)
      ensures Result(cacheData.Value(), err) == Apply(old(cacheData.Value()), Cmd.FreezeDataNode(id), 1)
    {
      hide Freeze;
      var data := new Data.Clone(cacheData);
      err := data.FreezeDataNode(id);
      if err != OK {
        return;
      }
      Commit(data);
    }

    method UnfreezeDataNode(id: nat) returns (err: Err)
      modifies this
      ensures fresh(cacheData) || cacheData == old(cacheData)
      ensures Result(cacheData.Value(), err) == Apply(old(cacheData.Value()), Cmd.UnfreezeDataNode(id), 1)
    {
      hide Unfreeze;
      var data := new Data.Clone(cacheData);
      err := data.UnfreezeDataNode(id);
      if err != OK {
        return;
      }
      Commit(data);
    }

    /** `ShardGroupByTimestamp`: the live group for that time. */
    method ShardGroupByTimestamp(data: Data, db: string, name: string, t: int) returns (g: Option<Group>)
      ensures g == AnswerIn(data.Value(), db, name, t)
      ensures g.Some? <==> NothingToDo(data.Value(), Cmd.CreateShardGroup(db, name, t))
    {
      hide Answer, Covered, PolicyIndex;
      var i, err := data.FindPolicy(db, name);
      if err != OK {
        return None;
      }
      AnswerExact(data.policies[i].groups, t);
      g := FirstCovering(data.policies[i].groups, t);
    }

    static method FirstCovering(gs: seq<Group>, t: int) returns (g: Option<Group>)
      ensures g == Answer(gs, t)
    {
      for k := 0 to |gs|
        invariant Answer(gs, t) == Answer(gs[k..], t)
      {
        if gs[k].Covers(t) {
          return Some(gs[k]);
        }
        assert gs[k..][1..] == gs[k + 1..];
      }
      return None;
    }

    /** The group returned is the one that covers the time in the metadata after the call. */
    method CreateShardGroup(db: string, name: string, t: int) returns (err: Err, g: Option<Group>)
      modifies this
      ensures fresh(cacheData) || cacheData == old(cacheData)
      ensures Result(cacheData.Value(), err) == Apply(old(cacheData.Value()), Cmd.CreateShardGroup(db, name, t), 1)
      ensures g == if err == OK then AnswerIn(cacheData.Value(), db, name, t) else None
    {
      hide CreateGroup, NothingToDo, Answer;
      // checked once under the read lock and again, on the clone, under the write lock
      g := ShardGroupByTimestamp(cacheData, db, name, t);
      if g.Some? {
        return OK, g;
      }
      var data := new Data.Clone(cacheData);
      g := ShardGroupByTimestamp(data, db, name, t);
      if g.Some? {
        return OK, g;
      }
      err := data.CreateShardGroup(db, name, t);
      if err != OK {
        return err, None;
      }
      g := ShardGroupByTimestamp(data, db, name, t);
      Commit(data);
    }

    method ChangeShardOwner(shard: nat, node: nat, add: bool)
      modifies this
      ensures fresh(cacheData)
      ensures Result(cacheData.Value(), OK) == Apply(old(cacheData.Value()),
                if add then Cmd.AddShardOwner(shard, node) else Cmd.RemoveShardOwner(shard, node), 1)
    {
      hide ReownPolicies;
      var data := new Data.Clone(cacheData);
      data.ChangeShardOwner(shard, node, add);
      Commit(data);
    }

    method DeleteShardGroup(db: string, name: string, id: nat, now: int) returns (err: Err)
      modifies this
      ensures fresh(cacheData) || cacheData == old(cacheData)
      ensures Result(cacheData.Value(), err) == Apply(old(cacheData.Value()), Cmd.DeleteShardGroup(db, name, id), now)
    {
      hide DeleteGroup;
      var data := new Data.Clone(cacheData);
      err := data.DeleteShardGroup(db, name, id, now);
      if err != OK {
        return;
      }
      Commit(data);
    }

    method PruneShardGroups(expiration: int)
      modifies this
      ensures fresh(cacheData) || cacheData == old(cacheData)
      ensures Result(cacheData.Value(), OK) == Apply(old(cacheData.Value()), Cmd.PruneShardGroups(expiration), 1)
    {
      hide Remaining;
      var changed := false;
      var data := new Data.Clone(cacheData);
      ghost var ps := data.policies;
      for i := 0 to |data.policies|
        invariant data.Value() == old(cacheData.Value()).(policies := data.policies)
        invariant |data.policies| == |ps| && cacheData == old(cacheData) && cacheData.Value() == old(cacheData.Value())
        invariant forall k :: 0 <= k < i ==> data.policies[k] == ps[k].(groups := Remaining(ps[k].groups, expiration))
        invariant forall k :: i <= k < |ps| ==> data.policies[k] == ps[k]
        invariant changed <==> exists k :: 0 <= k < i && Remaining(ps[k].groups, expiration) != ps[k].groups
      {
        var some, gs := PruneGroups(data.policies[i].groups, expiration);
        if some {
          changed := true;
        }
        data.policies := data.policies[i := data.policies[i].(groups := gs)];
      }
      assert data.policies == PrunePolicies(ps, expiration);
      if k :| 0 <= k < |ps| && Remaining(ps[k].groups, expiration) != ps[k].groups {
        assert data.policies[k] != ps[k];
      }
      if changed {
        Commit(data);
      }
    }

    static method PruneGroups(gs: seq<Group>, expiration: int) returns (changed: bool, out: seq<Group>)
      ensures out == Remaining(gs, expiration)
      ensures changed <==> out != gs
    {
      hide Remaining;
      changed, out := false, [];
      RemainingNone(expiration);
      for i := 0 to |gs|
        invariant out == Remaining(gs[..i], expiration)
        invariant !changed ==> out == gs[..i]
        invariant changed ==> |out| < i
      {
        assert gs[..i + 1] == gs[..i] + [gs[i]];
        RemainingSnoc(gs[..i], gs[i], expiration);
        if gs[i].deletedAt == 0 || !(expiration > gs[i].deletedAt) {
          out := out + [gs[i]];
          continue;
        }
        changed := true;
      }
      assert gs[..|gs|] == gs;
    }

    /** The metadata cases of the switch in raftmeta/apply.go. */
    method Execute(c: Cmd, now: int) returns (err: Err)
      modifies this, cacheData
      ensures fresh(cacheData) || cacheData == old(cacheData)
      ensures Result(cacheData.Value(), err) == Apply(old(cacheData.Value()), c, now)
    {
      ClockFree(cacheData.Value(), c, now);
      hide Apply;
      match c {
        case CreateDataNode(host, tcpHost) =>
          var node;
          err, node := CreateDataNode(host, tcpHost);
        case DeleteDataNode(id) => err := DeleteDataNode(id, now);
        case FreezeDataNode(id) => err := FreezeDataNode(id);
        case UnfreezeDataNode(id) => err := UnfreezeDataNode(id);
        case CreateShardGroup(db, policy, t) =>
          var g;
          err, g := CreateShardGroup(db, policy, t);
        case AddShardOwner(shard, node) =>
          ChangeShardOwner(shard, node, true);
          err := OK;
        case RemoveShardOwner(shard, node) =>
          ChangeShardOwner(shard, node, false);
          err := OK;
        case DeleteShardGroup(db, policy, id) => err := DeleteShardGroup(db, policy, id, now);
        case PruneShardGroups(expiration) =>
          PruneShardGroups(expiration);
          err := OK;
      }
    }
  }

  /** Only deletions look at the clock. */
  lemma ClockFree(d: Meta, c: Cmd, now: int)
    ensures !c.DeleteDataNode? && !c.DeleteShardGroup? ==> Apply(d, c, now) == Apply(d, c, 1)
  {
    hide CreateGroup, CreateNode, Freeze, Unfreeze, Reown, PrunePolicies, NothingToDo;
  }

  lemma NodeErrors(d: Meta, host: string, tcpHost: string)
    ensures CreateNode(d, host, tcpHost).err != OK ==> CreateNode(d, host, tcpHost).meta == d
  {
  }
}
