/**
 The metadata as services/meta/data.go holds it: lists and counters that are changed
 in place by loops. Every method is proved against the operation on values.
 */
module MetaData {
  import opened Bytes
  import opened Lists
  import opened MetaModel
  import opened MetaOps
  import opened NodeRemoval
  import opened Placement

  datatype Item = Item(id: nat, freq: nat)

  predicate ItemLess(a: Item, b: Item) {
    if a.freq != b.freq then a.freq < b.freq else a.id < b.id
  }

  /** `getFreezed` */
  method GetFreezed(frozen: seq<nat>, id: nat) returns (i: int)
    ensures i == -1 <==> id !in frozen
    ensures i != -1 ==> i == IndexOf(frozen, id) && 0 <= i < |frozen|
  {
    for k := 0 to |frozen|
      invariant id !in frozen[..k]
    {
      if frozen[k] == id {
        FirstIndex(frozen, id, k);
        return k;
      }
    }
    return -1;
  }

  lemma FirstIndex(s: seq<nat>, x: nat, k: nat)
    requires k < |s| && s[k] == x && x !in s[..k]
    ensures IndexOf(s, x) == k
  {
    var i := IndexOf(s, x);
  }

  method ExistInNodes(nodes: seq<NodeInfo>, id: nat) returns (found: bool)
    ensures found <==> id in NodeIds(nodes)
  {
    for k := 0 to |nodes|
      invariant forall j :: 0 <= j < k ==> nodes[j].id != id
    {
      if nodes[k].id == id {
        assert NodeIds(nodes)[k] == id;
        return true;
      }
    }
    assert forall j :: 0 <= j < |nodes| ==> NodeIds(nodes)[j] == nodes[j].id;
    return false;
  }

  /**
   `newShardOwner`: the candidates are collected in whatever order the map yields them,
   sorted, and the first one is taken. The order of collection does not matter.
   */
  method NewShardOwner(freqs: map<nat, nat>) returns (id: nat)
    ensures id == LeastLoaded(freqs)
  {
    if |freqs.Keys| < 1 {
      return 0;
    }
    var arr: seq<Item> := [];
    var left := freqs.Keys;
    while left != {}
      invariant left <= freqs.Keys
      invariant forall x :: x in arr <==> x.id in freqs && x.id !in left && x.freq == freqs[x.id]
      decreases left
    {
      var k :| k in left;
      arr := arr + [Item(k, freqs[k])];
      left := left - {k};
    }
    SortSorts(arr, ItemLess);
    forall x ensures x in Sort(arr, ItemLess) <==> x in arr {
      SortMember(arr, ItemLess, x);
    }
    var first :| first in freqs;
    assert Item(first, freqs[first]) in arr;
    var sorted := Sort(arr, ItemLess);
    FirstIsLeast(sorted, freqs);
    return sorted[0].id;
  }

  lemma FirstIsLeast(sorted: seq<Item>, freqs: map<nat, nat>)
    requires sorted != [] && Sorted(sorted, ItemLess)
    requires forall x :: x in sorted <==> x.id in freqs && x.freq == freqs[x.id]
    ensures sorted[0].id == LeastLoaded(freqs)
  {
    var a := sorted[0];
    assert a in sorted;
    forall b | b in freqs && b != a.id ensures Before(freqs, a.id, b) {
      var y := Item(b, freqs[b]);
      assert y in sorted;
      var j :| 0 <= j < |sorted| && sorted[j] == y;
      assert !ItemLess(sorted[j], sorted[0]);
    }
    LeastUnique(freqs, a.id, LeastLoaded(freqs));
  }

  // ---------- removing a node from a group ----------

  /** The owner loop: where the node is listed last, and everybody's count one up. */
  method CountOwners(owners: seq<nat>, id: nat, freqs: map<nat, nat>) returns (nodeIdx: int, counts: map<nat, nat>)
    ensures nodeIdx == LastIndex(owners, id)
    ensures counts == AddCounts(freqs, owners)
  {
    nodeIdx, counts := -1, freqs;
    for i := 0 to |owners|
      invariant nodeIdx == LastIndex(owners[..i], id)
      invariant counts == AddCounts(freqs, owners[..i])
    {
      assert owners[..i + 1][..i] == owners[..i];
      var o := owners[i];
      if o == id {
        nodeIdx := i;
      }
      counts := counts[o := (if o in counts then counts[o] else 0) + 1];
    }
    assert owners[..|owners|] == owners;
  }

  function LastIndex(owners: seq<nat>, id: nat): (i: int)
    ensures -1 <= i < |owners|
  {
    if owners == [] then -1
    else if owners[|owners| - 1] == id then |owners| - 1
    else LastIndex(owners[..|owners| - 1], id)
  }

  function AddCounts(freqs: map<nat, nat>, owners: seq<nat>): (m: map<nat, nat>) {
    if owners == [] then freqs
    else
      var n := |owners| - 1;
      var m := AddCounts(freqs, owners[..n]);
      m[owners[n] := (if owners[n] in m then m[owners[n]] else 0) + 1]
  }

  lemma RemoveAtFront(s: seq<nat>, x: nat, i: nat)
    requires i < |s|
    ensures RemoveAt(s + [x], i) == RemoveAt(s, i) + [x]
  {
  }

  lemma {:induction false} RemoveAtLastIndex(owners: seq<nat>, id: nat)
    ensures LastIndex(owners, id) == -1 ==> WithoutLast(owners, id) == owners
    ensures LastIndex(owners, id) >= 0 ==> WithoutLast(owners, id) == RemoveAt(owners, LastIndex(owners, id))
  {
    if owners != [] {
      var n := |owners| - 1;
      assert owners == owners[..n] + [owners[n]];
      if owners[n] != id {
        RemoveAtLastIndex(owners[..n], id);
        var i := LastIndex(owners[..n], id);
        if i >= 0 {
          RemoveAtFront(owners[..n], owners[n], i);
        }
      } else {
        assert RemoveAt(owners, n) == owners[..n];
      }
    }
  }

  lemma {:induction false} AddCountsAre(freqs: map<nat, nat>, owners: seq<nat>, x: nat)
    ensures x in AddCounts(freqs, owners) <==> x in freqs || x in owners
    ensures x in AddCounts(freqs, owners) ==>
              AddCounts(freqs, owners)[x] == (if x in freqs then freqs[x] else 0) + multiset(owners)[x]
  {
    if owners != [] {
      var n := |owners| - 1;
      assert owners == owners[..n] + [owners[n]];
      AddCountsAre(freqs, owners[..n], x);
      AddCountsAre(freqs, owners[..n], owners[n]);
    }
  }

  lemma CountsOfNextShard(freqs: map<nat, nat>, shards: seq<Shard>, i: nat)
    requires i < |shards| && IsFreqMap(freqs, shards[..i])
    ensures IsFreqMap(AddCounts(freqs, shards[i].owners), shards[..i + 1])
  {
    assert shards[..i + 1][..i] == shards[..i];
    var m := AddCounts(freqs, shards[i].owners);
    forall x: nat
      ensures (x in m <==> Freq(shards[..i + 1], x) > 0) && (x in m ==> m[x] == Freq(shards[..i + 1], x))
    {
      AddCountsAre(freqs, shards[i].owners, x);
    }
  }

  lemma FreqMapUnique(m: map<nat, nat>, shards: seq<Shard>)
    requires IsFreqMap(m, shards)
    ensures m == FreqMap(shards)
  {
    FreqMapCounts(shards);
    assert forall n: nat :: n in m <==> n in FreqMap(shards);
  }

  method RelinquishAll(shards: seq<Shard>, id: nat)
    returns (dropped: seq<Shard>, orphans: seq<nat>, freqs: map<nat, nat>)
    ensures dropped == DropOwner(shards, id)
    ensures orphans == OrphanIds(dropped)
    ensures freqs == FreqMap(shards)
  {
    hide Freq, IsFreqMap, DropOwner, OrphanIds, WithoutLast, LastIndex, AddCounts;
    dropped, orphans, freqs := [], [], map[];
    NoFreqs(shards, id);
    for i := 0 to |shards|
      invariant dropped == DropOwner(shards[..i], id)
      invariant orphans == OrphanIds(dropped)
      invariant IsFreqMap(freqs, shards[..i])
    {
      var s := shards[i];
      var nodeIdx, counts := CountOwners(s.owners, id, freqs);
      CountsOfNextShard(freqs, shards, i);
      freqs := counts;
      RemoveAtLastIndex(s.owners, id);
      var owners := s.owners;
      if nodeIdx > -1 {
        owners := RemoveAt(owners, nodeIdx);
      }
      if owners == [] {
        orphans := orphans + [s.id];
      }
      DropNext(shards, i, id);
      OrphanNext(dropped, Shard(s.id, owners));
      dropped := dropped + [Shard(s.id, owners)];
    }
    assert shards[..|shards|] == shards;
    FreqMapUnique(freqs, shards);
  }

  lemma NoFreqs(shards: seq<Shard>, id: nat)
    ensures IsFreqMap(map[], shards[..0])
    ensures DropOwner(shards[..0], id) == [] && OrphanIds([]) == []
  {
  }

  lemma DropNext(shards: seq<Shard>, i: nat, id: nat)
    requires i < |shards|
    ensures DropOwner(shards[..i + 1], id)
            == DropOwner(shards[..i], id) + [Shard(shards[i].id, WithoutLast(shards[i].owners, id))]
  {
  }

  lemma OrphanNext(shards: seq<Shard>, s: Shard)
    ensures OrphanIds(shards + [s]) == OrphanIds(shards) + if s.owners == [] then [s.id] else []
  {
    assert (shards + [s])[..|shards|] == shards;
  }

  method ReassignAll(shards: seq<Shard>, orphans: seq<nat>, freqs: map<nat, nat>)
    returns (ok: bool, out: seq<Shard>)
    ensures ok == Reassign(shards, orphans, freqs).Some?
    ensures ok ==> out == Reassign(shards, orphans, freqs).value
  {
    hide AddOwner, IndexOf, Ids, IsLeast;
    out := shards;
    var counts := freqs;
    assert orphans[0..] == orphans;
    for k := 0 to |orphans|
      invariant Reassign(out, orphans[k..], counts) == Reassign(shards, orphans, freqs)
    {
      assert orphans[k..][0] == orphans[k] && orphans[k..][1..] == orphans[k + 1..];
      var newOwner := NewShardOwner(counts);
      if newOwner == 0 {
        return false, [];
      }
      var si := FindShard(out, orphans[k]);
      if si < |out| {
        out := AddOwner(out, si, newOwner);
        counts := counts[newOwner := (if newOwner in counts then counts[newOwner] else 0) + 1];
      }
    }
    assert orphans[|orphans|..] == [];
    return true, out;
  }

  method FindShard(shards: seq<Shard>, id: nat) returns (i: nat)
    ensures i == IndexOf(Ids(shards), id)
  {
    i := 0;
    while i < |shards|
      invariant i <= |shards|
      invariant id !in Ids(shards)[..i]
    {
      if shards[i].id == id {
        FirstIndex(Ids(shards), id, i);
        return;
      }
      assert Ids(shards)[..i + 1] == Ids(shards)[..i] + [shards[i].id];
      i := i + 1;
    }
    assert Ids(shards)[..i] == Ids(shards);
  }

  method RemoveNodeFromGroup(g: Group, id: nat, now: int) returns (ok: bool, h: Group)
    ensures ok == RemoveFromGroup(g, id, now).Some?
    ensures ok ==> h == RemoveFromGroup(g, id, now).value
  {
    hide Reassign, DropOwner, OrphanIds, FreqMap;
    var dropped, orphans, freqs := RelinquishAll(g.shards, id);
    if |g.shards| == 0 || |orphans| == |g.shards| {
      if |g.shards| == 0 {
        NoOrphans(g.shards, id);
      }
      return true, g.(shards := dropped, deletedAt := now);
    }
    var shards;
    ok, shards := ReassignAll(dropped, orphans, freqs - {id});
    h := g.(shards := shards);
  }

  lemma NoOrphans(shards: seq<Shard>, id: nat)
    requires shards == []
    ensures OrphanIds(DropOwner(shards, id)) == []
  {
  }

  lemma {:induction false} GroupsFailOnce(gs: seq<Group>, id: nat, now: int, i: nat)
    requires i < |gs| && RemoveFromGroup(gs[i], id, now).None?
    ensures RemoveFromGroups(gs, id, now).None?
  {
    hide RemoveFromGroup;
    if i < |gs| - 1 {
      GroupsFailOnce(gs[..|gs| - 1], id, now, i);
    }
  }

  method RemoveNodeFromGroups(gs: seq<Group>, id: nat, now: int) returns (ok: bool, hs: seq<Group>)
    ensures ok == RemoveFromGroups(gs, id, now).Some?
    ensures ok ==> hs == RemoveFromGroups(gs, id, now).value
  {
    hide RemoveFromGroup;
    hs := [];
    for i := 0 to |gs|
      invariant RemoveFromGroups(gs[..i], id, now) == Some(hs)
    {
      var h;
      ok, h := RemoveNodeFromGroup(gs[i], id, now);
      if !ok {
        GroupsFailOnce(gs, id, now, i);
        return;
      }
      assert gs[..i + 1][..i] == gs[..i];
      hs := hs + [h];
    }
    assert gs[..|gs|] == gs;
    ok := true;
  }

  lemma {:induction false} PoliciesFailOnce(ps: seq<Policy>, id: nat, now: int, i: nat)
    requires i < |ps| && RemoveFromGroups(ps[i].groups, id, now).None?
    ensures RemoveFromPolicies(ps, id, now).None?
  {
    hide RemoveFromGroups;
    if i < |ps| - 1 {
      PoliciesFailOnce(ps[..|ps| - 1], id, now, i);
    }
  }

  method RemoveNodeFromPolicies(ps: seq<Policy>, id: nat, now: int) returns (ok: bool, qs: seq<Policy>)
    ensures ok == RemoveFromPolicies(ps, id, now).Some?
    ensures ok ==> qs == RemoveFromPolicies(ps, id, now).value
  {
    hide RemoveFromGroups;
    qs := [];
    for i := 0 to |ps|
      invariant RemoveFromPolicies(ps[..i], id, now) == Some(qs)
    {
      var gs;
      ok, gs := RemoveNodeFromGroups(ps[i].groups, id, now);
      if !ok {
        PoliciesFailOnce(ps, id, now, i);
        return;
      }
      assert ps[..i + 1][..i] == ps[..i];
      qs := qs + [ps[i].(groups := gs)];
    }
    assert ps[..|ps|] == ps;
    ok := true;
  }

  // ---------- dealing shards ----------

  method AvailableNodes(nodes: seq<NodeInfo>, frozen: seq<nat>) returns (avail: seq<nat>)
    ensures avail == Available(nodes, frozen)
  {
    avail := [];
    for i := 0 to |nodes|
      invariant avail == Available(nodes[..i], frozen)
    {
      assert nodes[..i + 1][..i] == nodes[..i];
      if nodes[i].id !in frozen {
        avail := avail + [nodes[i].id];
      }
    }
    assert nodes[..|nodes|] == nodes;
  }

  /** The two loops: shards with consecutive ids first, then their owners, `nodeIndex` running on. */
  method DealShards(avail: seq<nat>, base: nat, replicaN: nat, firstId: nat, shardN: nat) returns (shards: seq<Shard>)
    requires avail != []
    ensures shards == ShardsDealt(avail, base, replicaN, firstId, shardN)
  {
    hide Dealt;
    shards := [];
    for i := 0 to shardN
      invariant |shards| == i
      invariant forall k :: 0 <= k < i ==> shards[k] == Shard(firstId + k, [])
    {
      shards := shards + [Shard(firstId + i, [])];
    }
    var nodeIndex := base;
    for i := 0 to shardN
      invariant |shards| == shardN
      invariant shards[..i] == ShardsDealt(avail, base, replicaN, firstId, i)
      invariant forall k :: i <= k < shardN ==> shards[k] == Shard(firstId + k, [])
      invariant nodeIndex == base + i * replicaN
    {
      var owners := DealOwners(avail, nodeIndex, replicaN);
      ghost var before := shards[..i];
      shards := shards[i := Shard(shards[i].id, owners)];
      assert shards[..i + 1] == before + [shards[i]];
      nodeIndex := nodeIndex + replicaN;
      assert (i + 1) * replicaN == i * replicaN + replicaN;
    }
    assert shards[..shardN] == shards;
  }

  method DealOwners(avail: seq<nat>, nodeIndex: nat, replicaN: nat) returns (owners: seq<nat>)
    requires avail != []
    ensures owners == OwnersDealt(avail, nodeIndex, replicaN)
  {
    owners := [];
    for j := 0 to replicaN
      invariant |owners| == j
      invariant forall k :: 0 <= k < j ==> owners[k] == Dealt(avail, nodeIndex, k)
    {
      owners := owners + [avail[(nodeIndex + j) % |avail|]];
    }
  }

  // ---------- one shard by id ----------

  method ReownInShards(ss: seq<Shard>, id: nat, node: nat, add: bool) returns (found: bool, out: seq<Shard>)
    ensures found == ReownShards(ss, id, node, add).Some?
    ensures found ==> out == ReownShards(ss, id, node, add).value
  {
    var i := FindShard(ss, id);
    if i == |ss| {
      return false, ss;
    }
    var s := ss[i];
    if !add {
      var owners := RemoveOwner(s.owners, node);
      return true, ss[i := Shard(s.id, owners)];
    }
    for k := 0 to |s.owners|
      invariant node !in s.owners[..k]
    {
      if s.owners[k] == node {
        assert ss[i := s] == ss;
        return true, ss;
      }
    }
    return true, ss[i := Shard(s.id, s.owners + [node])];
  }

  method RemoveOwner(owners: seq<nat>, node: nat) returns (out: seq<nat>)
    ensures out == Without(owners, node)
  {
    out := [];
    for k := 0 to |owners|
      invariant out == Without(owners[..k], node)
    {
      assert owners[..k + 1][..k] == owners[..k];
      if owners[k] != node {
        out := out + [owners[k]];
      }
    }
    assert owners[..|owners|] == owners;
  }

  lemma {:induction false} ReownGroupsAt(gs: seq<Group>, id: nat, node: nat, add: bool, i: nat)
    requires i < |gs| && forall k :: 0 <= k < i ==> ReownShards(gs[k].shards, id, node, add).None?
    requires ReownShards(gs[i].shards, id, node, add).Some?
    ensures ReownGroups(gs, id, node, add)
            == Some(gs[i := gs[i].(shards := ReownShards(gs[i].shards, id, node, add).value)])
  {
    hide ReownShards;
    var h := gs[i].(shards := ReownShards(gs[i].shards, id, node, add).value);
    if i == 0 {
      assert [h] + gs[1..] == gs[0 := h];
    } else {
      ReownGroupsAt(gs[1..], id, node, add, i - 1);
      assert [gs[0]] + gs[1..][i - 1 := h] == gs[i := h];
    }
  }

  lemma {:induction false} ReownGroupsNowhere(gs: seq<Group>, id: nat, node: nat, add: bool)
    requires forall k :: 0 <= k < |gs| ==> ReownShards(gs[k].shards, id, node, add).None?
    ensures ReownGroups(gs, id, node, add) == None
  {
    hide ReownShards;
    if gs != [] {
      ReownGroupsNowhere(gs[1..], id, node, add);
    }
  }

  method ReownInGroups(gs: seq<Group>, id: nat, node: nat, add: bool) returns (found: bool, out: seq<Group>)
    ensures found == ReownGroups(gs, id, node, add).Some?
    ensures found ==> out == ReownGroups(gs, id, node, add).value
  {
    hide ReownShards, ReownGroups;
    for i := 0 to |gs|
      invariant forall k :: 0 <= k < i ==> ReownShards(gs[k].shards, id, node, add).None?
    {
      var ss;
      found, ss := ReownInShards(gs[i].shards, id, node, add);
      if found {
        ReownGroupsAt(gs, id, node, add, i);
        return true, gs[i := gs[i].(shards := ss)];
      }
    }
    ReownGroupsNowhere(gs, id, node, add);
    return false, gs;
  }

  lemma {:induction false} ReownPoliciesAt(ps: seq<Policy>, id: nat, node: nat, add: bool, i: nat)
    requires i < |ps| && forall k :: 0 <= k < i ==> ReownGroups(ps[k].groups, id, node, add).None?
    requires ReownGroups(ps[i].groups, id, node, add).Some?
    ensures ReownPolicies(ps, id, node, add)
            == Some(ps[i := ps[i].(groups := ReownGroups(ps[i].groups, id, node, add).value)])
  {
    hide ReownGroups;
    var q := ps[i].(groups := ReownGroups(ps[i].groups, id, node, add).value);
    if i == 0 {
      assert [q] + ps[1..] == ps[0 := q];
    } else {
      ReownPoliciesAt(ps[1..], id, node, add, i - 1);
      assert [ps[0]] + ps[1..][i - 1 := q] == ps[i := q];
    }
  }

  lemma {:induction false} ReownPoliciesNowhere(ps: seq<Policy>, id: nat, node: nat, add: bool)
    requires forall k :: 0 <= k < |ps| ==> ReownGroups(ps[k].groups, id, node, add).None?
    ensures ReownPolicies(ps, id, node, add) == None
  {
    hide ReownGroups;
    if ps != [] {
      ReownPoliciesNowhere(ps[1..], id, node, add);
    }
  }

  // ---------- the data ----------

  class Data {
    var databases: set<string>
    var policies: seq<Policy>
    var metaNodes: seq<NodeInfo>
    var dataNodes: seq<NodeInfo>
    var frozen: seq<nat>
    var maxNodeID: nat
    var maxGroupID: nat
    var maxShardID: nat
    var index: nat

    function Value(): (m: Meta)
      reads this
    {
      Meta(databases, policies, metaNodes, dataNodes, frozen, maxNodeID, maxGroupID, maxShardID, index)
    }

    /** `UnmarshalBinary` of what `MarshalBinary` wrote. */
    constructor FromValue(m: Meta)
      ensures Value() == m
    {
      databases, policies, metaNodes, dataNodes := m.databases, m.policies, m.metaNodes, m.dataNodes;
      frozen, maxNodeID, maxGroupID, maxShardID := m.frozen, m.maxNodeID, m.maxGroupID, m.maxShardID;
      index := m.index;
    }

    /** `Clone` */
    constructor Clone(other: Data)
      ensures Value() == other.Value()
    {
      databases, policies, metaNodes, dataNodes := other.databases, other.policies, other.metaNodes, other.dataNodes;
      frozen, maxNodeID, maxGroupID, maxShardID := other.frozen, other.maxNodeID, other.maxGroupID, other.maxShardID;
      index := other.index;
    }

    method CreateDataNode(host: string, tcpHost: string) returns (id: nat, err: Err)
      modifies this
      ensures Result(Value(), err) == CreateNode(old(Value()), host, tcpHost)
      ensures err == OK ==> NodeInfo(id, host, tcpHost) in dataNodes
    {
      hide Sort;
      for i := 0 to |dataNodes|
        invariant Value() == old(Value())
        invariant forall k :: 0 <= k < i ==> !NodeMatches(dataNodes[k], host, tcpHost)
      {
        if dataNodes[i].tcpHost == tcpHost || dataNodes[i].host == host {
          assert NodeMatches(dataNodes[i], host, tcpHost);
          return 0, NodeExists;
        }
      }
      id := FindMatch(metaNodes, host, tcpHost);
      if id == 0 {
        maxNodeID := maxNodeID + 1;
        id := maxNodeID;
      }
      var n := NodeInfo(id, host, tcpHost);
      SortMember(dataNodes + [n], NodeLess, n);
      dataNodes := Sort(dataNodes + [n], NodeLess);
      err := OK;
    }

    static method FindMatch(nodes: seq<NodeInfo>, host: string, tcpHost: string) returns (id: nat)
      ensures id == MatchingId(nodes, host, tcpHost)
    {
      for i := 0 to |nodes|
        invariant MatchingId(nodes, host, tcpHost) == MatchingId(nodes[i..], host, tcpHost)
      {
        if nodes[i].tcpHost == tcpHost || nodes[i].host == host {
          return nodes[i].id;
        }
        assert nodes[i..][1..] == nodes[i + 1..];
      }
      return 0;
    }

    method FreezeDataNode(id: nat) returns (err: Err)
      modifies this
      ensures Result(Value(), err) == Freeze(old(Value()), id)
    {
      if id == 0 {
        return NodeIDRequired;
      }
      var found := ExistInNodes(dataNodes, id);
      if !found {
        return NodeNotFound;
      }
      var i := GetFreezed(frozen, id);
      if i > -1 {
        return NodeAlreadyFreezed;
      }
      frozen := frozen + [id];
      return OK;
    }

    method UnfreezeDataNode(id: nat) returns (err: Err)
      modifies this
      ensures Result(Value(), err) == Unfreeze(old(Value()), id)
    {
      if id == 0 {
        return NodeIDRequired;
      }
      var found := ExistInNodes(dataNodes, id);
      if !found {
        return NodeNotFound;
      }
      var i := GetFreezed(frozen, id);
      if i == -1 {
        return NodeNotFreezed;
      }
      frozen := RemoveAt(frozen, i);
      return OK;
    }

    /** On "no node can be reassigned" the data is left half changed; callers work on a clone. */
    method DeleteDataNode(id: nat, now: int) returns (err: Err)
      modifies this
      ensures err == DeleteNode(old(Value()), id, now).err
      ensures err != NoNewOwner ==> Value() == DeleteNode(old(Value()), id, now).meta
    {
      hide RemoveFromPolicies;
      if id == 0 {
        return NodeIDRequired;
      }
      var nodes := [];
      for i := 0 to |dataNodes|
        invariant Value() == old(Value())
        invariant nodes == NodesWithout(dataNodes[..i], id)
      {
        assert dataNodes[..i + 1][..i] == dataNodes[..i];
        if dataNodes[i].id != id {
          nodes := nodes + [dataNodes[i]];
        }
      }
      assert dataNodes[..|dataNodes|] == dataNodes;
      NoneRemoved(dataNodes, id);
      if |nodes| == |dataNodes| {
        return NodeNotFound;
      }
      dataNodes := nodes;
      var ok, ps := RemoveNodeFromPolicies(policies, id, now);
      if !ok {
        return NoNewOwner;
      }
      policies := ps;
      var i := GetFreezed(frozen, id);
      if i > -1 {
        frozen := RemoveAt(frozen, i);
      }
      return OK;
    }

    method FindPolicy(db: string, name: string) returns (i: nat, err: Err)
      ensures err == PolicyErr(Value(), db, name)
      ensures err == OK ==> i == PolicyIndex(policies, db, name) < |policies|
    {
      i := 0;
      if db !in databases {
        return i, DatabaseNotFound;
      }
      while i < |policies|
        invariant i <= |policies|
        invariant PolicyIndex(policies, db, name) == i + PolicyIndex(policies[i..], db, name)
      {
        if policies[i].db == db && policies[i].name == name {
          return i, OK;
        }
        assert policies[i..][1..] == policies[i + 1..];
        i := i + 1;
      }
      return i, PolicyNotFound;
    }

    method CreateShardGroup(db: string, name: string, t: int) returns (err: Err)
      modifies this
      ensures Result(Value(), err) == CreateGroup(old(Value()), db, name, t)
    {
      hide Sort, ShardsDealt, Available, PolicyIndex, Covered, Truncate, EndOf;
      if |dataNodes| == 0 {
        return NodeNotFound;
      }
      var i;
      i, err := FindPolicy(db, name);
      if err != OK {
        return;
      }
      var p := policies[i];
      var covered := HasGroupAt(p.groups, t);
      if covered {
        return OK;
      }
      var avail := AvailableNodes(dataNodes, frozen);
      var replicaN := p.replicaN;
      if replicaN == 0 {
        replicaN := 1;
      } else if replicaN > |avail| {
        replicaN := |avail|;
      }
      if replicaN < 1 {
        return NoReplica;
      }
      if |avail| == 0 {
        return Panic;
      }
      var shardN := |avail| / replicaN;
      var start := Truncate(t, p.groupDuration);
      var shards := DealShards(avail, index % |avail|, replicaN, maxShardID + 1, shardN);
      var g := Group(maxGroupID + 1, start, EndOf(start, p.groupDuration), 0, 0, shards);
      maxGroupID, maxShardID := maxGroupID + 1, maxShardID + |shards|;
      policies := policies[i := p.(groups := Sort(p.groups + [g], GroupLess))];
      return OK;
    }

    static method HasGroupAt(gs: seq<Group>, t: int) returns (found: bool)
      ensures found == Covered(gs, t)
    {
      for i := 0 to |gs|
        invariant forall k :: 0 <= k < i ==> !gs[k].Covers(t)
      {
        if gs[i].Covers(t) {
          return true;
        }
      }
      return false;
    }

    /** `AddShardOwner` and `RemoveShardOwner`: the first shard of that id, wherever it is. */
    method ChangeShardOwner(shard: nat, node: nat, add: bool)
      modifies this
      ensures Value() == Reown(old(Value()), shard, node, add).meta
    {
      hide ReownGroups, ReownPolicies;
      for i := 0 to |policies|
        invariant Value() == old(Value())
        invariant forall k :: 0 <= k < i ==> ReownGroups(policies[k].groups, shard, node, add).None?
      {
        var found, gs := ReownInGroups(policies[i].groups, shard, node, add);
        if found {
          ReownPoliciesAt(policies, shard, node, add, i);
          policies := policies[i := policies[i].(groups := gs)];
          return;
        }
      }
      ReownPoliciesNowhere(policies, shard, node, add);
    }

    method DeleteShardGroup(db: string, name: string, id: nat, now: int) returns (err: Err)
      modifies this
      ensures Result(Value(), err) == DeleteGroup(old(Value()), db, name, id, now)
    {
      hide PolicyIndex;
      var i;
      i, err := FindPolicy(db, name);
      if err != OK {
        return;
      }
      var gs := policies[i].groups;
      for j := 0 to |gs|
        invariant Value() == old(Value())
        invariant GroupIndex(gs, id) == j + GroupIndex(gs[j..], id)
      {
        if gs[j].id == id {
          policies := policies[i := policies[i].(groups := gs[j := gs[j].(deletedAt := now)])];
          return OK;
        }
        assert gs[j..][1..] == gs[j + 1..];
      }
      return GroupNotFound;
    }
  }

  lemma {:induction false} NoneRemoved(nodes: seq<NodeInfo>, id: nat)
    ensures |NodesWithout(nodes, id)| == |nodes| <==> id !in NodeIds(nodes)
  {
    if nodes != [] {
      var n := |nodes| - 1;
      NoneRemoved(nodes[..n], id);
      assert NodeIds(nodes) == NodeIds(nodes[..n]) + [nodes[n].id];
    }
  }
}
