/**
 What every run of metadata commands keeps, whatever the commands (services/meta/data.go):
 each command changes owners and deletion stamps, adds one group, or prunes. So ids stay
 below their counters, which only grow, and no id is handed out twice.
 */
module AnyRuns {
  import opened Lists
  import opened MetaModel
  import opened MetaOps
  import opened MetaRuns
  import opened NodeRemoval
  import opened Placement

  // ---------- commands that leave the groups where they are ----------

  /** The same group with other owners or another deletion stamp. */
  ghost predicate Reshaped(g: Group, h: Group) {
    && h.id == g.id && h.start == g.start && h.end == g.end && h.truncatedAt == g.truncatedAt
    && Ids(h.shards) == Ids(g.shards)
  }

  ghost predicate GroupsReshaped(gs: seq<Group>, hs: seq<Group>) {
    |gs| == |hs| && forall i :: 0 <= i < |gs| ==> Reshaped(gs[i], hs[i])
  }

  ghost predicate PoliciesReshaped(ps: seq<Policy>, qs: seq<Policy>) {
    && |ps| == |qs|
    && forall i :: 0 <= i < |ps| ==> qs[i] == ps[i].(groups := qs[i].groups) && GroupsReshaped(ps[i].groups, qs[i].groups)
  }

  lemma ReshapedSelf(gs: seq<Group>)
    ensures GroupsReshaped(gs, gs)
  {
  }

  lemma {:induction false} ReassignKeepsIds(shards: seq<Shard>, orphans: seq<nat>, freqs: map<nat, nat>)
    ensures var r := Reassign(shards, orphans, freqs); r.Some? ==> Ids(r.value) == Ids(shards)
    decreases |orphans|
  {
    hide Ids, AddOwner;
    if orphans != [] {
      var n := LeastLoaded(freqs);
      var i := IndexOf(Ids(shards), orphans[0]);
      if n != 0 {
        if i == |shards| {
          ReassignKeepsIds(shards, orphans[1..], freqs);
        } else {
          IdsKept(shards, i, n);
          ReassignKeepsIds(AddOwner(shards, i, n), orphans[1..], freqs[n := (if n in freqs then freqs[n] else 0) + 1]);
        }
      }
    }
  }

  lemma RemoveReshapes(g: Group, id: nat, now: int)
    ensures var r := RemoveFromGroup(g, id, now); r.Some? ==> Reshaped(g, r.value)
  {
    hide Reassign, FreqMap, OrphanIds;
    var dropped := DropOwner(g.shards, id);
    assert Ids(dropped) == Ids(g.shards);
    ReassignKeepsIds(dropped, OrphanIds(dropped), FreqMap(g.shards) - {id});
  }

  /** Where a removal succeeds it succeeds in every group, and changes each by itself. */
  lemma {:induction false} RemovedGroupAt(gs: seq<Group>, id: nat, now: int, i: nat)
    requires RemoveFromGroups(gs, id, now).Some? && i < |gs|
    ensures RemoveFromGroup(gs[i], id, now).Some?
    ensures RemoveFromGroups(gs, id, now).value[i] == RemoveFromGroup(gs[i], id, now).value
  {
    hide RemoveFromGroup;
    if i < |gs| - 1 {
      RemovedGroupAt(gs[..|gs| - 1], id, now, i);
    }
  }

  lemma {:induction false} RemovedPolicyAt(ps: seq<Policy>, id: nat, now: int, i: nat)
    requires RemoveFromPolicies(ps, id, now).Some? && i < |ps|
    ensures RemoveFromGroups(ps[i].groups, id, now).Some?
    ensures RemoveFromPolicies(ps, id, now).value[i] == ps[i].(groups := RemoveFromGroups(ps[i].groups, id, now).value)
  {
    hide RemoveFromGroups;
    if i < |ps| - 1 {
      RemovedPolicyAt(ps[..|ps| - 1], id, now, i);
    }
  }

  lemma RemovePoliciesReshapes(ps: seq<Policy>, id: nat, now: int)
    ensures var r := RemoveFromPolicies(ps, id, now); r.Some? ==> PoliciesReshaped(ps, r.value)
  {
    hide RemoveFromPolicies, RemoveFromGroups, RemoveFromGroup, Reshaped;
    var r := RemoveFromPolicies(ps, id, now);
    if r.Some? {
      forall i | 0 <= i < |ps|
        ensures r.value[i] == ps[i].(groups := r.value[i].groups) && GroupsReshaped(ps[i].groups, r.value[i].groups)
      {
        RemovedPolicyAt(ps, id, now, i);
        forall j | 0 <= j < |ps[i].groups| ensures Reshaped(ps[i].groups[j], r.value[i].groups[j]) {
          RemovedGroupAt(ps[i].groups, id, now, j);
          RemoveReshapes(ps[i].groups[j], id, now);
        }
      }
    }
  }

  lemma ReownShardsReshapes(g: Group, id: nat, node: nat, add: bool)
    ensures var r := ReownShards(g.shards, id, node, add); r.Some? ==> Reshaped(g, g.(shards := r.value))
  {
    var r := ReownShards(g.shards, id, node, add);
    if r.Some? {
      assert Ids(r.value) == Ids(g.shards);
    }
  }

  lemma {:induction false} ReownGroupsReshapes(gs: seq<Group>, id: nat, node: nat, add: bool)
    ensures var r := ReownGroups(gs, id, node, add); r.Some? ==> GroupsReshaped(gs, r.value)
  {
    hide ReownShards;
    if gs != [] {
      ReownShardsReshapes(gs[0], id, node, add);
      ReownGroupsReshapes(gs[1..], id, node, add);
    }
  }

  lemma {:induction false} ReownPoliciesReshapes(ps: seq<Policy>, id: nat, node: nat, add: bool)
    ensures var r := ReownPolicies(ps, id, node, add); r.Some? ==> PoliciesReshaped(ps, r.value)
  {
    hide ReownGroups, GroupsReshaped;
    if ps != [] {
      forall gs: seq<Group> ensures GroupsReshaped(gs, gs) { ReshapedSelf(gs); }
      ReownGroupsReshapes(ps[0].groups, id, node, add);
      ReownPoliciesReshapes(ps[1..], id, node, add);
    }
  }

  lemma StampReshapes(d: Meta, db: string, name: string, id: nat, now: int)
    ensures PoliciesReshaped(d.policies, DeleteGroup(d, db, name, id, now).meta.policies)
  {
    hide PolicyIndex, GroupIndex;
  }

  lemma NothingReshaped(ps: seq<Policy>)
    ensures PoliciesReshaped(ps, ps)
  {
  }

  /** Every command but creating a group and pruning leaves each group where it is, with its shards. */
  lemma ChangeReshapes(d: Meta, c: Cmd, now: int)
    requires !c.CreateShardGroup? && !c.PruneShardGroups?
    ensures PoliciesReshaped(d.policies, Change(d, c, now).meta.policies)
  {
    hide PoliciesReshaped, RemoveFromPolicies, ReownPolicies, DeleteGroup, Thaw, NodesWithout, Sort;
    NothingReshaped(d.policies);
    match c
    case DeleteDataNode(id) => RemovePoliciesReshapes(d.policies, id, now);
    case AddShardOwner(shard, node) => ReownPoliciesReshapes(d.policies, shard, node, true);
    case RemoveShardOwner(shard, node) => ReownPoliciesReshapes(d.policies, shard, node, false);
    case DeleteShardGroup(db, name, id) => StampReshapes(d, db, name, id, now);
    case _ =>
  }

  // ---------- a group that is added ----------

  /** What a creation adds, if anything. */
  ghost predicate AddsAtMost(d: Meta, e: Meta, g: Group) {
    && |e.policies| == |d.policies|
    && forall i, x :: 0 <= i < |d.policies| && x in e.policies[i].groups ==> x in d.policies[i].groups || x == g
  }

  /** A new group has shards with the next ids, each with at least one owner. */
  ghost predicate NewShards(g: Group, after: nat) {
    && |g.shards| > 0
    && forall i :: 0 <= i < |g.shards| ==> g.shards[i].id == after + 1 + i && g.shards[i].owners != []
  }

  lemma NewGroupShards(d: Meta, p: Policy, t: int, avail: seq<nat>, replicaN: nat)
    requires 0 < replicaN <= |avail|
    ensures NewShards(NewGroup(d, p, t, avail, replicaN), d.maxShardID)
  {
    hide ShardsDealt;
    QuotientPositive(|avail|, replicaN);
    var g := NewGroup(d, p, t, avail, replicaN);
    forall i | 0 <= i < |g.shards| ensures g.shards[i].id == d.maxShardID + 1 + i && g.shards[i].owners != [] {
      ShardDealtAt(avail, d.index % |avail|, replicaN, d.maxShardID + 1, |avail| / replicaN, i);
    }
  }

  /** In any metadata a creation adds at most one group, with the next group id and the next shard ids. */
  lemma CreateAdds(d: Meta, db: string, name: string, t: int) returns (g: Group)
    ensures var e := CreateGroup(d, db, name, t).meta;
            e != d ==>
              && AddsAtMost(d, e, g) && g.id == d.maxGroupID + 1 == e.maxGroupID
              && NewShards(g, d.maxShardID) && e.maxShardID == d.maxShardID + |g.shards|
  {
    hide NewGroup, Available, PolicyIndex, Covered, Sort, NewShards;
    g := Group(0, 0, 0, 0, 0, []);
    if CreateGroup(d, db, name, t).meta != d {
      var p := d.policies[PolicyIndex(d.policies, db, name)];
      var avail := Available(d.dataNodes, d.frozen);
      g := NewGroup(d, p, t, avail, Replicas(p.replicaN, |avail|));
      NewGroupShards(d, p, t, avail, Replicas(p.replicaN, |avail|));
      NewGroupId(d, p, t, avail, Replicas(p.replicaN, |avail|));
      forall x ensures x in Sort(p.groups + [g], GroupLess) ==> x in p.groups || x == g {
        SortMember(p.groups + [g], GroupLess, x);
      }
    }
  }

  lemma NewGroupId(d: Meta, p: Policy, t: int, avail: seq<nat>, replicaN: nat)
    requires avail != [] && replicaN > 0
    ensures NewGroup(d, p, t, avail, replicaN).id == d.maxGroupID + 1
  {
    hide ShardsDealt;
  }

  // ---------- ids ----------

  ghost predicate GroupNumbered(g: Group, maxGroup: nat, maxShard: nat) {
    && g.id <= maxGroup && Distinct(Ids(g.shards)) && g.shards != []
    && forall x :: x in Ids(g.shards) ==> x <= maxShard
  }

  ghost predicate GroupsNumbered(ps: seq<Policy>, maxGroup: nat, maxShard: nat) {
    forall i, j :: 0 <= i < |ps| && 0 <= j < |ps[i].groups| ==> GroupNumbered(ps[i].groups[j], maxGroup, maxShard)
  }

  /** Node, group and shard ids are within their counters, and shard ids of a group differ. */
  ghost predicate Numbered(d: Meta) {
    NodesOk(d) && GroupsNumbered(d.policies, d.maxGroupID, d.maxShardID)
  }

  lemma ReshapeKeepsNumbers(ps: seq<Policy>, qs: seq<Policy>, mg: nat, ms: nat)
    requires GroupsNumbered(ps, mg, ms) && PoliciesReshaped(ps, qs)
    ensures GroupsNumbered(qs, mg, ms)
  {
    hide Distinct, Ids;
    forall i, j | 0 <= i < |qs| && 0 <= j < |qs[i].groups| ensures GroupNumbered(qs[i].groups[j], mg, ms) {
      assert GroupNumbered(ps[i].groups[j], mg, ms) && Reshaped(ps[i].groups[j], qs[i].groups[j]);
      SameIdsSameLength(ps[i].groups[j].shards, qs[i].groups[j].shards);
    }
  }

  lemma SameIdsSameLength(a: seq<Shard>, b: seq<Shard>)
    requires Ids(a) == Ids(b)
    ensures |a| == |b|
  {
    assert |a| == |Ids(a)| == |Ids(b)| == |b|;
  }

  lemma PruneKeepsNumbers(ps: seq<Policy>, expiration: int, mg: nat, ms: nat)
    requires GroupsNumbered(ps, mg, ms)
    ensures GroupsNumbered(PrunePolicies(ps, expiration), mg, ms)
  {
    hide GroupNumbered, Remaining;
    forall i, j | 0 <= i < |ps| && 0 <= j < |Remaining(ps[i].groups, expiration)|
      ensures GroupNumbered(Remaining(ps[i].groups, expiration)[j], mg, ms)
    {
      RemainingAre(ps[i].groups, expiration);
      assert Remaining(ps[i].groups, expiration)[j] in Remaining(ps[i].groups, expiration);
    }
  }

  lemma NewIsNumbered(g: Group, maxGroup: nat, after: nat)
    requires NewShards(g, after) && g.id <= maxGroup
    ensures GroupNumbered(g, maxGroup, after + |g.shards|)
  {
    forall x | x in Ids(g.shards) ensures x <= after + |g.shards| {
      var i :| 0 <= i < |g.shards| && Ids(g.shards)[i] == x;
    }
  }

  lemma MoreNumbers(g: Group, mg: nat, ms: nat, mg': nat, ms': nat)
    requires GroupNumbered(g, mg, ms) && mg <= mg' && ms <= ms'
    ensures GroupNumbered(g, mg', ms')
  {
    hide Distinct, Ids;
  }

  lemma CreateKeepsNumbers(d: Meta, db: string, name: string, t: int)
    requires GroupsNumbered(d.policies, d.maxGroupID, d.maxShardID)
    ensures var e := CreateGroup(d, db, name, t).meta; GroupsNumbered(e.policies, e.maxGroupID, e.maxShardID)
  {
    hide CreateGroup, GroupNumbered, NewShards;
    var e := CreateGroup(d, db, name, t).meta;
    var g := CreateAdds(d, db, name, t);
    if e != d {
      NewIsNumbered(g, e.maxGroupID, d.maxShardID);
      forall i, j | 0 <= i < |e.policies| && 0 <= j < |e.policies[i].groups|
        ensures GroupNumbered(e.policies[i].groups[j], e.maxGroupID, e.maxShardID)
      {
        var x := e.policies[i].groups[j];
        assert x in e.policies[i].groups;
        if x in d.policies[i].groups {
          MoreNumbers(x, d.maxGroupID, d.maxShardID, e.maxGroupID, e.maxShardID);
        }
      }
    }
  }

  lemma ChangeKeepsNodes(d: Meta, c: Cmd, now: int)
    requires NodesOk(d)
    ensures NodesOk(Change(d, c, now).meta)
  {
    hide RemoveFromPolicies, ReownPolicies, PrunePolicies, Sort, NewGroup, Covered, Available, PolicyIndex, GroupIndex,
      Thaw, NodesWithout, NodeIds;
    match c
    case CreateDataNode(host, tcpHost) => NodeAppended(d, host, tcpHost);
    case DeleteDataNode(id) => NodesAfterDelete(d, id);
    case FreezeDataNode(id) =>
    case UnfreezeDataNode(id) => ThawAre(d.frozen, id);
    case _ =>
  }

  lemma CountersStay(d: Meta, c: Cmd, now: int)
    requires !c.CreateShardGroup?
    ensures var e := Change(d, c, now).meta; e.maxGroupID == d.maxGroupID && e.maxShardID == d.maxShardID
  {
    hide RemoveFromPolicies, ReownPolicies, PrunePolicies, Sort, PolicyIndex, GroupIndex, Thaw, NodesWithout;
  }

  lemma ChangeKeepsNumbers(d: Meta, c: Cmd, now: int)
    requires Numbered(d)
    ensures Numbered(Change(d, c, now).meta)
  {
    hide GroupsNumbered, Change, NodesOk;
    ChangeKeepsNodes(d, c, now);
    if c.CreateShardGroup? {
      CreateKeepsNumbers(d, c.db, c.policy, c.t);
      CreateIs(d, c, now);
    } else {
      CountersStay(d, c, now);
      if c.PruneShardGroups? {
        PruneKeepsNumbers(d.policies, c.expiration, d.maxGroupID, d.maxShardID);
        PruneIs(d, c, now);
      } else {
        ChangeReshapes(d, c, now);
        ReshapeKeepsNumbers(d.policies, Change(d, c, now).meta.policies, d.maxGroupID, d.maxShardID);
      }
    }
  }

  lemma CreateIs(d: Meta, c: Cmd, now: int)
    requires c.CreateShardGroup?
    ensures Change(d, c, now) == CreateGroup(d, c.db, c.policy, c.t)
  {
  }

  lemma PruneIs(d: Meta, c: Cmd, now: int)
    requires c.PruneShardGroups?
    ensures Change(d, c, now).meta.policies == PrunePolicies(d.policies, c.expiration)
  {
  }

  lemma IndexKeepsNumbers(d: Meta, index: nat)
    requires Numbered(d)
    ensures Numbered(d.(index := index))
  {
    hide GroupsNumbered;
  }

  // ---------- runs ----------

  lemma InitialNumbered(d: Meta)
    requires Initial(d)
    ensures Numbered(d)
  {
  }

  lemma {:induction false} RunKeepsNumbers(ds: seq<Meta>, cs: seq<Cmd>, clocks: seq<int>, i: nat)
    requires AnyRun(ds, cs, clocks) && i < |ds|
    ensures Numbered(ds[i])
  {
    hide Numbered, Change, NothingToDo, Initial;
    if i == 0 {
      InitialNumbered(ds[0]);
    } else {
      var d, c, now := ds[i - 1], cs[i - 1], clocks[i - 1];
      RunKeepsNumbers(ds, cs, clocks, i - 1);
      ChangeKeepsNumbers(d, c, now);
      IndexKeepsNumbers(Change(d, c, now).meta, Change(d, c, now).meta.index + 1);
      assert ds[(i - 1) + 1] == ds[i];
    }
  }

  lemma CountersGrow(d: Meta, c: Cmd, now: int)
    ensures var e := Apply(d, c, now).meta;
            d.maxNodeID <= e.maxNodeID && d.maxGroupID <= e.maxGroupID && d.maxShardID <= e.maxShardID
  {
    hide Sort, NewGroup, Covered, Available, PolicyIndex, RemoveFromPolicies, ReownPolicies, PrunePolicies, GroupIndex;
  }

  lemma {:induction false} CountersGrowInRuns(ds: seq<Meta>, cs: seq<Cmd>, clocks: seq<int>, i: nat, j: nat)
    requires AnyRun(ds, cs, clocks) && i <= j < |ds|
    ensures ds[i].maxNodeID <= ds[j].maxNodeID
    ensures ds[i].maxGroupID <= ds[j].maxGroupID && ds[i].maxShardID <= ds[j].maxShardID
    decreases j - i
  {
    hide Apply;
    if i < j {
      CountersGrowInRuns(ds, cs, clocks, i, j - 1);
      CountersGrow(ds[j - 1], cs[j - 1], clocks[j - 1]);
      assert ds[(j - 1) + 1] == ds[j];
    }
  }

  /** Every id in a state is at most its counter. */
  ghost predicate IdsWithin(d: Meta, maxNode: nat, maxGroup: nat, maxShard: nat) {
    && (forall i :: 0 <= i < |d.dataNodes| ==> d.dataNodes[i].id <= maxNode)
    && forall i, j :: 0 <= i < |d.policies| && 0 <= j < |d.policies[i].groups| ==>
         var g := d.policies[i].groups[j];
         g.id <= maxGroup && forall k :: 0 <= k < |g.shards| ==> g.shards[k].id <= maxShard
  }

  lemma NumberedWithin(d: Meta)
    requires Numbered(d)
    ensures IdsWithin(d, d.maxNodeID, d.maxGroupID, d.maxShardID)
  {
    forall i, j, k | 0 <= i < |d.policies| && 0 <= j < |d.policies[i].groups| && 0 <= k < |d.policies[i].groups[j].shards|
      ensures d.policies[i].groups[j].shards[k].id <= d.maxShardID
    {
      var g := d.policies[i].groups[j];
      assert GroupNumbered(g, d.maxGroupID, d.maxShardID);
      assert Ids(g.shards)[k] == g.shards[k].id && g.shards[k].id in Ids(g.shards);
    }
  }

  /**
   Over a whole run of any commands: every id seen so far, in this state or any earlier one,
   is below the next one that is handed out, whether or not its holder is still there.
   */
  lemma IdsNeverReused(ds: seq<Meta>, cs: seq<Cmd>, clocks: seq<int>, i: nat, j: nat)
    requires AnyRun(ds, cs, clocks) && i <= j < |ds|
    ensures IdsWithin(ds[i], ds[j].maxNodeID, ds[j].maxGroupID, ds[j].maxShardID)
  {
    hide Numbered, AnyRun;
    RunKeepsNumbers(ds, cs, clocks, i);
    NumberedWithin(ds[i]);
    CountersGrowInRuns(ds, cs, clocks, i, j);
  }
}
