/**
 What every run of metadata commands keeps: clean owner lists, fresh shard ids, and
 live shard groups that never overlap.
 */
module MetaRuns {
  import opened Lists
  import opened MetaModel
  import opened MetaOps
  import opened NodeRemoval
  import opened Placement

  // ---------- the invariant ----------

  function ShardCounter(x: nat): Group -> nat {
    (g: Group) => multiset(Ids(g.shards))[x]
  }

  function PolicyShardCounter(x: nat): Policy -> nat {
    (p: Policy) => Sum(p.groups, ShardCounter(x))
  }

  function IdCounter(x: nat): Group -> nat {
    (g: Group) => if g.id == x then 1 else 0
  }

  /** Counts the live groups that start at `s`. */
  function LiveCounter(s: int): Group -> nat {
    (g: Group) => if !g.Deleted() && g.start == s then 1 else 0
  }

  ghost predicate Ranged(g: Group, duration: int) {
    duration > 0 ==>
      g.start % duration == 0 && g.start <= MAX_TIME && g.end == EndOf(g.start, duration) && g.truncatedAt == 0
  }

  ghost predicate GroupOk(g: Group, duration: int, maxGroupID: nat, maxShardID: nat) {
    && Clean(g.shards)
    && (forall i :: 0 <= i < |g.shards| ==> 0 < g.shards[i].id <= maxShardID)
    && g.id <= maxGroupID
    && Ranged(g, duration)
  }

  ghost predicate PolicyOk(p: Policy, maxGroupID: nat, maxShardID: nat) {
    && (forall i :: 0 <= i < |p.groups| ==> GroupOk(p.groups[i], p.groupDuration, maxGroupID, maxShardID))
    && (p.groupDuration > 0 ==> forall s :: Sum(p.groups, LiveCounter(s)) <= 1)
    && (forall x: nat :: Sum(p.groups, IdCounter(x)) <= 1)
  }

  ghost predicate PoliciesOk(ps: seq<Policy>, maxGroupID: nat, maxShardID: nat) {
    && (forall i :: 0 <= i < |ps| ==> PolicyOk(ps[i], maxGroupID, maxShardID))
    && (forall x: nat :: Sum(ps, PolicyShardCounter(x)) <= 1)
  }

  ghost predicate NodesOk(d: Meta) {
    && d.metaNodes == []
    && (forall i, j :: 0 <= i < j < |d.dataNodes| ==> d.dataNodes[i].id < d.dataNodes[j].id)
    && (forall i :: 0 <= i < |d.dataNodes| ==> 0 < d.dataNodes[i].id <= d.maxNodeID)
    && Distinct(d.frozen)
    && (forall x :: x in d.frozen ==> x in NodeIds(d.dataNodes))
  }

  ghost predicate Inv(d: Meta) {
    NodesOk(d) && PoliciesOk(d.policies, d.maxGroupID, d.maxShardID)
  }

  // ---------- changes that keep the groups in place ----------

  /** `h` is `g` with other owners, or marked deleted. */
  ghost predicate Evolves(g: Group, h: Group) {
    && h.id == g.id && h.start == g.start && h.end == g.end && h.truncatedAt == g.truncatedAt
    && Ids(h.shards) == Ids(g.shards)
    && (Clean(g.shards) ==> Clean(h.shards))
    && (g.Deleted() ==> h.Deleted())
  }

  ghost predicate GroupsEvolve(gs: seq<Group>, hs: seq<Group>) {
    |gs| == |hs| && forall i :: 0 <= i < |gs| ==> Evolves(gs[i], hs[i])
  }

  ghost predicate PoliciesEvolve(ps: seq<Policy>, qs: seq<Policy>) {
    && |ps| == |qs|
    && forall i :: 0 <= i < |ps| ==> qs[i] == ps[i].(groups := qs[i].groups) && GroupsEvolve(ps[i].groups, qs[i].groups)
  }

  lemma {:induction false} SumLe<T>(s: seq<T>, t: seq<T>, f: T -> nat)
    requires |s| == |t| && forall i :: 0 <= i < |s| ==> f(s[i]) <= f(t[i])
    ensures Sum(s, f) <= Sum(t, f)
  {
    if s != [] {
      SumLe(s[..|s| - 1], t[..|t| - 1], f);
    }
  }

  lemma EvolveGroupOk(g: Group, h: Group, duration: int, mg: nat, ms: nat)
    requires GroupOk(g, duration, mg, ms) && Evolves(g, h)
    ensures GroupOk(h, duration, mg, ms)
  {
    assert |Ids(h.shards)| == |Ids(g.shards)|;
    forall i | 0 <= i < |h.shards| ensures 0 < h.shards[i].id <= ms {
      assert Ids(h.shards)[i] == Ids(g.shards)[i];
    }
  }

  lemma EvolvePolicyOk(p: Policy, q: Policy, mg: nat, ms: nat)
    requires PolicyOk(p, mg, ms) && q == p.(groups := q.groups) && GroupsEvolve(p.groups, q.groups)
    ensures PolicyOk(q, mg, ms)
    ensures forall x: nat :: PolicyShardCounter(x)(q) == PolicyShardCounter(x)(p)
  {
    forall i | 0 <= i < |q.groups| ensures GroupOk(q.groups[i], q.groupDuration, mg, ms) {
      assert GroupOk(p.groups[i], p.groupDuration, mg, ms) && Evolves(p.groups[i], q.groups[i]);
      EvolveGroupOk(p.groups[i], q.groups[i], p.groupDuration, mg, ms);
    }
    forall s ensures Sum(q.groups, LiveCounter(s)) <= Sum(p.groups, LiveCounter(s)) {
      assert forall i :: 0 <= i < |q.groups| ==> Evolves(p.groups[i], q.groups[i]);
      SumLe(q.groups, p.groups, LiveCounter(s));
    }
    forall x: nat
      ensures PolicyShardCounter(x)(q) == PolicyShardCounter(x)(p)
      ensures Sum(q.groups, IdCounter(x)) <= 1
    {
      assert forall i :: 0 <= i < |q.groups| ==> Evolves(p.groups[i], q.groups[i]);
      SumSame(q.groups, p.groups, ShardCounter(x));
      SumSame(q.groups, p.groups, IdCounter(x));
    }
  }

  lemma EvolvePoliciesOk(ps: seq<Policy>, qs: seq<Policy>, mg: nat, ms: nat)
    requires PoliciesOk(ps, mg, ms) && PoliciesEvolve(ps, qs)
    ensures PoliciesOk(qs, mg, ms)
  {
    hide PolicyOk, GroupsEvolve;
    forall i | 0 <= i < |qs|
      ensures PolicyOk(qs[i], mg, ms) && forall x: nat :: PolicyShardCounter(x)(qs[i]) == PolicyShardCounter(x)(ps[i])
    {
      EvolvePolicyOk(ps[i], qs[i], mg, ms);
    }
    forall x: nat ensures Sum(qs, PolicyShardCounter(x)) <= 1 {
      SumSame(qs, ps, PolicyShardCounter(x));
    }
  }

  lemma EvolvesSelf(g: Group)
    ensures Evolves(g, g)
  {
  }

  // ---------- owners ----------

  lemma {:induction false} WithoutKeepsClean(owners: seq<nat>, node: nat)
    requires CleanOwners(owners)
    ensures CleanOwners(Without(owners, node))
    ensures forall x :: x in Without(owners, node) <==> x in owners && x != node
  {
    if owners != [] {
      var n := |owners| - 1;
      assert owners == owners[..n] + [owners[n]];
      assert owners[n] !in owners[..n];
      WithoutKeepsClean(owners[..n], node);
    }
  }

  lemma ReownedClean(s: Shard, node: nat, add: bool)
    requires CleanOwners(s.owners) && (add ==> node != 0)
    ensures CleanOwners(Reowned(s, node, add).owners) && Reowned(s, node, add).id == s.id
  {
    if !add {
      WithoutKeepsClean(s.owners, node);
    }
  }

  lemma ReownShardsEvolves(g: Group, id: nat, node: nat, add: bool)
    requires add ==> node != 0
    ensures var r := ReownShards(g.shards, id, node, add);
            r.Some? ==> Evolves(g, g.(shards := r.value))
  {
    var r := ReownShards(g.shards, id, node, add);
    if r.Some? {
      var i := IndexOf(Ids(g.shards), id);
      assert Ids(r.value) == Ids(g.shards);
      if Clean(g.shards) {
        forall j | 0 <= j < |r.value| ensures CleanOwners(r.value[j].owners) {
          assert CleanOwners(g.shards[j].owners);
          ReownedClean(g.shards[j], node, add);
        }
      }
    }
  }

  lemma {:induction false} ReownGroupsEvolve(gs: seq<Group>, id: nat, node: nat, add: bool)
    requires add ==> node != 0
    ensures var r := ReownGroups(gs, id, node, add);
            r.Some? ==> GroupsEvolve(gs, r.value)
  {
    hide Evolves, ReownShards;
    if gs != [] {
      forall g: Group ensures Evolves(g, g) { EvolvesSelf(g); }
      ReownShardsEvolves(gs[0], id, node, add);
      ReownGroupsEvolve(gs[1..], id, node, add);
    }
  }

  lemma {:induction false} ReownPoliciesEvolve(ps: seq<Policy>, id: nat, node: nat, add: bool)
    requires add ==> node != 0
    ensures var r := ReownPolicies(ps, id, node, add);
            r.Some? ==> PoliciesEvolve(ps, r.value)
  {
    hide GroupsEvolve, ReownGroups;
    if ps != [] {
      forall gs: seq<Group> ensures GroupsEvolve(gs, gs) { GroupsEvolveSelf(gs); }
      ReownGroupsEvolve(ps[0].groups, id, node, add);
      ReownPoliciesEvolve(ps[1..], id, node, add);
    }
  }

  lemma GroupsEvolveSelf(gs: seq<Group>)
    ensures GroupsEvolve(gs, gs)
  {
    forall g: Group ensures Evolves(g, g) { EvolvesSelf(g); }
  }

  // ---------- removing a node ----------

  ghost predicate GroupsClean(gs: seq<Group>) {
    forall i :: 0 <= i < |gs| ==> Clean(gs[i].shards)
  }

  ghost predicate GroupsRemoved(gs: seq<Group>, id: nat, now: int, hs: seq<Group>) {
    |hs| == |gs| && forall i :: 0 <= i < |gs| ==> Removed(gs[i], id, now, hs[i])
  }

  lemma {:induction false} RemoveFromGroupsSafe(gs: seq<Group>, id: nat, now: int)
    requires GroupsClean(gs)
    ensures RemoveFromGroups(gs, id, now).Some?
    ensures GroupsRemoved(gs, id, now, RemoveFromGroups(gs, id, now).value)
  {
    hide Removed, RemoveFromGroup, Clean;
    if gs != [] {
      RemoveFromGroupsSafe(gs[..|gs| - 1], id, now);
      RemoveFromGroupSafe(gs[|gs| - 1], id, now);
    }
  }

  ghost predicate PoliciesClean(ps: seq<Policy>) {
    forall i :: 0 <= i < |ps| ==> GroupsClean(ps[i].groups)
  }

  ghost predicate PoliciesRemoved(ps: seq<Policy>, id: nat, now: int, qs: seq<Policy>) {
    && |qs| == |ps|
    && forall i :: 0 <= i < |ps| ==>
         qs[i] == ps[i].(groups := qs[i].groups) && GroupsRemoved(ps[i].groups, id, now, qs[i].groups)
  }

  lemma {:induction false} RemoveFromPoliciesSafe(ps: seq<Policy>, id: nat, now: int)
    requires PoliciesClean(ps)
    ensures RemoveFromPolicies(ps, id, now).Some?
    ensures PoliciesRemoved(ps, id, now, RemoveFromPolicies(ps, id, now).value)
  {
    hide GroupsRemoved, GroupsClean, RemoveFromGroups;
    if ps != [] {
      RemoveFromPoliciesSafe(ps[..|ps| - 1], id, now);
      RemoveFromGroupsSafe(ps[|ps| - 1].groups, id, now);
    }
  }

  lemma RemovedEvolves(g: Group, id: nat, now: int, h: Group)
    requires Removed(g, id, now, h) && now != 0
    ensures Evolves(g, h)
  {
    hide Clean, OwnersOf, DropOwner, Freq, NewOwners, Ids;
  }

  lemma PoliciesRemovedEvolve(ps: seq<Policy>, id: nat, now: int, qs: seq<Policy>)
    requires PoliciesRemoved(ps, id, now, qs) && now != 0
    ensures PoliciesEvolve(ps, qs)
  {
    hide Removed, Evolves;
    forall i | 0 <= i < |ps| ensures GroupsEvolve(ps[i].groups, qs[i].groups) {
      forall j | 0 <= j < |ps[i].groups| ensures Evolves(ps[i].groups[j], qs[i].groups[j]) {
        RemovedEvolves(ps[i].groups[j], id, now, qs[i].groups[j]);
      }
    }
  }

  lemma OkIsClean(ps: seq<Policy>, mg: nat, ms: nat)
    requires PoliciesOk(ps, mg, ms)
    ensures PoliciesClean(ps)
  {
    hide Clean, Ranged;
    forall i | 0 <= i < |ps| ensures GroupsClean(ps[i].groups) {
      assert PolicyOk(ps[i], mg, ms);
    }
  }

  lemma {:induction false} NodesWithoutAre(nodes: seq<NodeInfo>, id: nat)
    requires forall i, j :: 0 <= i < j < |nodes| ==> nodes[i].id < nodes[j].id
    ensures var r := NodesWithout(nodes, id);
            && (forall i, j :: 0 <= i < j < |r| ==> r[i].id < r[j].id)
            && (forall n :: n in r <==> n in nodes && n.id != id)
  {
    if nodes != [] {
      var n := |nodes| - 1;
      NodesWithoutAre(nodes[..n], id);
      assert nodes == nodes[..n] + [nodes[n]];
      var r := NodesWithout(nodes[..n], id);
      forall i | 0 <= i < |r| ensures r[i].id < nodes[n].id {
        assert r[i] in r;
      }
    }
  }

  lemma NodeIdMember(nodes: seq<NodeInfo>, x: nat)
    ensures x in NodeIds(nodes) <==> exists n :: n in nodes && n.id == x
  {
    if i :| 0 <= i < |nodes| && NodeIds(nodes)[i] == x {
      assert nodes[i] in nodes && nodes[i].id == x;
    }
    if n :| n in nodes && n.id == x {
      var i :| 0 <= i < |nodes| && nodes[i] == n;
      assert NodeIds(nodes)[i] == x;
    }
  }

  lemma ThawAre(frozen: seq<nat>, id: nat)
    requires Distinct(frozen)
    ensures Distinct(Thaw(frozen, id))
    ensures forall x :: x in Thaw(frozen, id) <==> x in frozen && x != id
  {
    hide IndexOf;
    var i := IndexOf(frozen, id);
    if i < |frozen| {
      RemovedAre(frozen, i);
    }
  }

  lemma RemovedAre(s: seq<nat>, i: nat)
    requires Distinct(s) && i < |s|
    ensures Distinct(RemoveAt(s, i))
    ensures forall x :: x in RemoveAt(s, i) <==> x in s && x != s[i]
  {
    var r := RemoveAt(s, i);
    forall j | 0 <= j < |r| ensures r[j] == s[if j < i then j else j + 1] {
    }
    forall x | x in s && x != s[i] ensures x in r {
      var j :| 0 <= j < |s| && s[j] == x;
      assert r[if j < i then j else j - 1] == x;
    }
    forall x | x in r ensures x in s && x != s[i] {
      var j :| 0 <= j < |r| && r[j] == x;
      assert s[if j < i then j else j + 1] == x;
    }
  }

  lemma NodesAfterDelete(d: Meta, id: nat)
    requires NodesOk(d)
    ensures var e := d.(dataNodes := NodesWithout(d.dataNodes, id), frozen := Thaw(d.frozen, id));
            && NodesOk(e)
            && id !in NodeIds(e.dataNodes) && id !in e.frozen
            && (forall x :: x != id ==> (x in NodeIds(e.dataNodes) <==> x in NodeIds(d.dataNodes)))
            && (forall x :: x != id ==> (x in e.frozen <==> x in d.frozen))
  {
    hide Thaw, NodesWithout, NodeIds;
    var nodes := NodesWithout(d.dataNodes, id);
    NodesWithoutAre(d.dataNodes, id);
    ThawAre(d.frozen, id);
    forall x: nat ensures x in NodeIds(nodes) <==> x in NodeIds(d.dataNodes) && x != id {
      NodeIdMember(nodes, x);
      NodeIdMember(d.dataNodes, x);
    }
    forall i | 0 <= i < |nodes| ensures 0 < nodes[i].id <= d.maxNodeID {
      assert nodes[i] in nodes;
    }
  }

  /**
   In every reachable state a known node can be removed: "no node can be reassigned"
   does not happen, nothing mentions the node afterwards, and every group is either
   marked deleted because nobody else owned any of it or has an owner for each shard.
   */
  lemma DeleteDataNodeSafe(d: Meta, id: nat, now: int)
    requires Inv(d) && now != 0 && id != 0 && id in NodeIds(d.dataNodes)
    ensures var r := DeleteNode(d, id, now);
            && r.err == OK && Inv(r.meta)
            && id !in NodeIds(r.meta.dataNodes) && id !in r.meta.frozen
            && PoliciesRemoved(d.policies, id, now, r.meta.policies)
  {
    hide PoliciesRemoved, PoliciesClean, PoliciesOk, PoliciesEvolve, RemoveFromPolicies, Thaw, NodesWithout, NodeIds;
    OkIsClean(d.policies, d.maxGroupID, d.maxShardID);
    RemoveFromPoliciesSafe(d.policies, id, now);
    var qs := RemoveFromPolicies(d.policies, id, now).value;
    PoliciesRemovedEvolve(d.policies, id, now, qs);
    EvolvePoliciesOk(d.policies, qs, d.maxGroupID, d.maxShardID);
    NodesAfterDelete(d, id);
  }

  // ---------- other node commands ----------

  lemma NodeAppended(d: Meta, host: string, tcpHost: string)
    requires NodesOk(d)
    ensures var nodes := d.dataNodes + [NodeInfo(d.maxNodeID + 1, host, tcpHost)];
            Sort(nodes, NodeLess) == nodes && NodesOk(d.(maxNodeID := d.maxNodeID + 1, dataNodes := nodes))
  {
    hide Sort;
    var nodes := d.dataNodes + [NodeInfo(d.maxNodeID + 1, host, tcpHost)];
    assert Sorted(nodes, NodeLess);
    SortSorted(nodes, NodeLess);
    assert NodeIds(nodes) == NodeIds(d.dataNodes) + [d.maxNodeID + 1];
  }

  /** A new node gets an id that no node ever had. */
  lemma CreateNodeKeepsInv(d: Meta, host: string, tcpHost: string)
    requires Inv(d)
    ensures Inv(CreateNode(d, host, tcpHost).meta)
    ensures CreateNode(d, host, tcpHost).err == OK ==>
              CreateNode(d, host, tcpHost).meta.dataNodes
              == d.dataNodes + [NodeInfo(d.maxNodeID + 1, host, tcpHost)]
  {
    hide PoliciesOk, Sort, NodeIds;
    NodeAppended(d, host, tcpHost);
  }

  lemma FreezeKeepsInv(d: Meta, id: nat)
    requires Inv(d)
    ensures Inv(Freeze(d, id).meta) && Inv(Unfreeze(d, id).meta)
  {
    hide PoliciesOk, Thaw, NodeIds;
    ThawAre(d.frozen, id);
  }

  lemma ReownKeepsInv(d: Meta, shard: nat, node: nat, add: bool)
    requires Inv(d) && (add ==> node != 0)
    ensures Inv(Reown(d, shard, node, add).meta)
  {
    hide PoliciesOk, ReownPolicies, PoliciesEvolve;
    ReownPoliciesEvolve(d.policies, shard, node, add);
    var r := ReownPolicies(d.policies, shard, node, add);
    if r.Some? {
      EvolvePoliciesOk(d.policies, r.value, d.maxGroupID, d.maxShardID);
    }
  }

  lemma DeleteGroupKeepsInv(d: Meta, db: string, name: string, id: nat, now: int)
    requires Inv(d) && now != 0
    ensures Inv(DeleteGroup(d, db, name, id, now).meta)
  {
    hide PoliciesOk;
    var r := DeleteGroup(d, db, name, id, now);
    if r.err == OK {
      forall gs: seq<Group> ensures GroupsEvolve(gs, gs) { GroupsEvolveSelf(gs); }
      assert PoliciesEvolve(d.policies, r.meta.policies);
      EvolvePoliciesOk(d.policies, r.meta.policies, d.maxGroupID, d.maxShardID);
    }
  }

  // ---------- creating a group ----------

  lemma {:induction false} MulDivLe(a: nat, b: nat)
    requires b > 0
    ensures (a / b) * b <= a
  {
    assert a == (a / b) * b + a % b;
  }

  lemma TruncateAligned(t: int, d: int)
    requires d > 0
    ensures Truncate(t, d) % d == 0 && Truncate(t, d) <= t < Truncate(t, d) + d
  {
    var q := t / d;
    assert t == q * d + t % d;
    assert Truncate(t, d) == q * d;
    MultipleMod(q, d);
  }

  lemma MultipleMod(q: int, d: int)
    requires d > 0
    ensures (q * d) % d == 0
  {
    var r := (q * d) % d;
    assert q * d == ((q * d) / d) * d + r;
    SameQuotient(q, (q * d) / d, d, r);
  }

  lemma SameQuotient(q: int, p: int, d: int, r: int)
    requires d > 0 && 0 <= r < d && q * d == p * d + r
    ensures r == 0
  {
    assert (q - p) * d == r;
    if q - p >= 1 {
      AtLeastOnce(q - p, d);
    } else if q - p <= -1 {
      AtLeastOnce(p - q, d);
    }
  }

  lemma ConsecutiveDistinct(shards: seq<Shard>, first: nat)
    requires forall i :: 0 <= i < |shards| ==> shards[i].id == first + i
    ensures Distinct(Ids(shards))
  {
  }

  lemma OnceIsClean(owners: seq<nat>, shards: seq<Shard>, i: nat, avail: seq<nat>)
    requires EachNodeOnce(shards) && i < |shards| && owners == shards[i].owners
    requires 0 !in avail && forall x :: x in owners ==> x in avail
    ensures CleanOwners(owners)
  {
    forall j, k | 0 <= j < k < |owners| ensures owners[j] != owners[k] {
      assert shards[i].owners[j] == owners[j] && shards[i].owners[k] == owners[k];
    }
  }

  lemma DealtClean(avail: seq<nat>, base: nat, replicaN: nat, firstId: nat, shardN: nat)
    requires avail != [] && Distinct(avail) && 0 !in avail && shardN * replicaN <= |avail|
    ensures Clean(ShardsDealt(avail, base, replicaN, firstId, shardN))
  {
    hide ShardsDealt, Distinct, EachNodeOnce;
    var s := ShardsDealt(avail, base, replicaN, firstId, shardN);
    RoundRobin(avail, base, replicaN, firstId, shardN);
    ConsecutiveDistinct(s, firstId);
    forall i | 0 <= i < |s| ensures CleanOwners(s[i].owners) {
      OnceIsClean(s[i].owners, s, i, avail);
    }
  }

  lemma AvailableClean(d: Meta)
    requires NodesOk(d)
    ensures Distinct(Available(d.dataNodes, d.frozen)) && 0 !in Available(d.dataNodes, d.frozen)
  {
    hide Available;
    AvailableAre(d.dataNodes, d.frozen);
    NodeIdMember(d.dataNodes, 0);
  }

  lemma NewGroupRanged(d: Meta, p: Policy, t: int, avail: seq<nat>, replicaN: nat)
    requires avail != [] && replicaN > 0
    ensures var g := NewGroup(d, p, t, avail, replicaN);
            Ranged(g, p.groupDuration) <==> p.groupDuration <= 0 || Truncate(t, p.groupDuration) <= MAX_TIME
  {
    hide ShardsDealt;
    if p.groupDuration > 0 {
      TruncateAligned(t, p.groupDuration);
    }
  }

  lemma NewGroupOk(d: Meta, p: Policy, t: int, avail: seq<nat>, replicaN: nat)
    requires avail != [] && Distinct(avail) && 0 !in avail && 0 < replicaN
    ensures var g := NewGroup(d, p, t, avail, replicaN);
            && (GroupOk(g, p.groupDuration, d.maxGroupID + 1, d.maxShardID + |g.shards|) <==>
                  p.groupDuration <= 0 || Truncate(t, p.groupDuration) <= MAX_TIME)
            && (forall i :: 0 <= i < |g.shards| ==> g.shards[i].id == d.maxShardID + 1 + i)
  {
    hide ShardsDealt, Clean, Ranged, Distinct, Truncate;
    MulDivLe(|avail|, replicaN);
    DealtClean(avail, d.index % |avail|, replicaN, d.maxShardID + 1, |avail| / replicaN);
    RoundRobin(avail, d.index % |avail|, replicaN, d.maxShardID + 1, |avail| / replicaN);
    NewGroupRanged(d, p, t, avail, replicaN);
  }

  /** Where no live group covers `t`, no live group starts where the one for `t` would. */
  lemma NoLiveAt(p: Policy, t: int, mg: nat, ms: nat)
    requires PolicyOk(p, mg, ms) && p.groupDuration > 0 && t <= MAX_TIME && !Covered(p.groups, t)
    ensures Sum(p.groups, LiveCounter(Truncate(t, p.groupDuration))) == 0
  {
    hide Clean, Truncate;
    var s := Truncate(t, p.groupDuration);
    TruncateAligned(t, p.groupDuration);
    forall i | 0 <= i < |p.groups| ensures LiveCounter(s)(p.groups[i]) == 0 {
      assert GroupOk(p.groups[i], p.groupDuration, mg, ms);
      assert !p.groups[i].Covers(t);
    }
    SumZero(p.groups, LiveCounter(s));
  }

  lemma CountDistinct(ids: seq<nat>, x: nat)
    requires Distinct(ids)
    ensures multiset(ids)[x] <= 1
    decreases |ids|
  {
    if ids != [] {
      var n := |ids| - 1;
      assert ids == ids[..n] + [ids[n]];
      CountDistinct(ids[..n], x);
      assert ids[n] !in ids[..n];
    }
  }

  lemma NewShardCount(g: Group, first: nat, x: nat)
    requires Clean(g.shards) && forall i :: 0 <= i < |g.shards| ==> g.shards[i].id == first + i
    ensures ShardCounter(x)(g) <= 1
    ensures x < first ==> ShardCounter(x)(g) == 0
  {
    CountDistinct(Ids(g.shards), x);
    if x in Ids(g.shards) {
      var i :| 0 <= i < |g.shards| && Ids(g.shards)[i] == x;
    }
  }

  lemma OldShardCount(ps: seq<Policy>, mg: nat, ms: nat, x: nat)
    requires PoliciesOk(ps, mg, ms) && x > ms
    ensures Sum(ps, PolicyShardCounter(x)) == 0
  {
    forall i | 0 <= i < |ps| ensures PolicyShardCounter(x)(ps[i]) == 0 {
      assert PolicyOk(ps[i], mg, ms);
      forall j | 0 <= j < |ps[i].groups| ensures ShardCounter(x)(ps[i].groups[j]) == 0 {
        OldShardAbsent(ps[i].groups[j], ps[i].groupDuration, mg, ms, x);
      }
      SumZero(ps[i].groups, ShardCounter(x));
    }
    SumZero(ps, PolicyShardCounter(x));
  }

  lemma OldShardAbsent(g: Group, duration: int, mg: nat, ms: nat, x: nat)
    requires GroupOk(g, duration, mg, ms) && x > ms
    ensures ShardCounter(x)(g) == 0
  {
    assert forall i :: 0 <= i < |g.shards| ==> Ids(g.shards)[i] == g.shards[i].id;
    assert x !in Ids(g.shards);
  }

  lemma WiderPolicyOk(p: Policy, mg: nat, ms: nat, mg': nat, ms': nat)
    requires PolicyOk(p, mg, ms) && mg <= mg' && ms <= ms'
    ensures PolicyOk(p, mg', ms')
  {
    hide Clean, Ranged;
    forall i | 0 <= i < |p.groups| ensures GroupOk(p.groups[i], p.groupDuration, mg', ms') {
      assert GroupOk(p.groups[i], p.groupDuration, mg, ms);
    }
  }

  lemma WithGroupOk(p: Policy, g: Group, mg: nat, ms: nat)
    requires PolicyOk(p, mg, ms) && GroupOk(g, p.groupDuration, mg, ms)
    requires p.groupDuration > 0 ==> Sum(p.groups, LiveCounter(g.start)) == 0
    requires Sum(p.groups, IdCounter(g.id)) == 0
    ensures PolicyOk(p.(groups := Sort(p.groups + [g], GroupLess)), mg, ms)
    ensures forall x: nat ::
              PolicyShardCounter(x)(p.(groups := Sort(p.groups + [g], GroupLess)))
              == PolicyShardCounter(x)(p) + ShardCounter(x)(g)
  {
    hide GroupOk, Sort;
    var gs := Sort(p.groups + [g], GroupLess);
    forall i | 0 <= i < |gs| ensures GroupOk(gs[i], p.groupDuration, mg, ms) {
      SortMember(p.groups + [g], GroupLess, gs[i]);
      assert gs[i] in gs;
    }
    forall s ensures p.groupDuration > 0 ==> Sum(gs, LiveCounter(s)) <= 1 {
      SortSum(p.groups + [g], GroupLess, LiveCounter(s));
      SumSnoc(p.groups, g, LiveCounter(s));
    }
    forall x: nat ensures Sum(gs, IdCounter(x)) <= 1 {
      SortSum(p.groups + [g], GroupLess, IdCounter(x));
      SumSnoc(p.groups, g, IdCounter(x));
    }
    forall x: nat ensures Sum(gs, ShardCounter(x)) == Sum(p.groups, ShardCounter(x)) + ShardCounter(x)(g) {
      SortSum(p.groups + [g], GroupLess, ShardCounter(x));
      SumSnoc(p.groups, g, ShardCounter(x));
    }
  }

  lemma NewGroupId(p: Policy, mg: nat, ms: nat)
    requires PolicyOk(p, mg, ms)
    ensures Sum(p.groups, IdCounter(mg + 1)) == 0
  {
    forall i | 0 <= i < |p.groups| ensures IdCounter(mg + 1)(p.groups[i]) == 0 {
      assert GroupOk(p.groups[i], p.groupDuration, mg, ms);
    }
    SumZero(p.groups, IdCounter(mg + 1));
  }

  lemma WithGroupPoliciesOk(ps: seq<Policy>, i: nat, g: Group, mg: nat, ms: nat)
    requires PoliciesOk(ps, mg, ms) && i < |ps|
    requires GroupOk(g, ps[i].groupDuration, mg + 1, ms + |g.shards|)
    requires forall k :: 0 <= k < |g.shards| ==> g.shards[k].id == ms + 1 + k
    requires ps[i].groupDuration > 0 ==> Sum(ps[i].groups, LiveCounter(g.start)) == 0
    requires g.id == mg + 1
    ensures var q := ps[i].(groups := Sort(ps[i].groups + [g], GroupLess));
            PoliciesOk(ps[i := q], mg + 1, ms + |g.shards|)
  {
    hide PolicyOk, Sort, Ranged, Clean;
    var q := ps[i].(groups := Sort(ps[i].groups + [g], GroupLess));
    var ms' := ms + |g.shards|;
    forall k | 0 <= k < |ps| ensures PolicyOk(ps[k], mg + 1, ms') {
      WiderPolicyOk(ps[k], mg, ms, mg + 1, ms');
    }
    NewGroupId(ps[i], mg, ms);
    WithGroupOk(ps[i], g, mg + 1, ms');
    forall x: nat ensures Sum(ps[i := q], PolicyShardCounter(x)) <= 1 {
      SumUpdate(ps, i, q, PolicyShardCounter(x));
      NewShardCount(g, ms + 1, x);
      if x > ms {
        OldShardCount(ps, mg, ms, x);
      }
    }
  }

  /** The group that a successful, non-idle creation adds. */
  ghost function Created(d: Meta, db: string, name: string, t: int): (g: Group)
    requires PolicyErr(d, db, name) == OK && Available(d.dataNodes, d.frozen) != []
    requires Replicas(d.policies[PolicyIndex(d.policies, db, name)].replicaN, |Available(d.dataNodes, d.frozen)|) > 0
  {
    var p := d.policies[PolicyIndex(d.policies, db, name)];
    var avail := Available(d.dataNodes, d.frozen);
    NewGroup(d, p, t, avail, Replicas(p.replicaN, |avail|))
  }

  /**
   Exactly when each outcome occurs. In particular a policy with replica setting 0
   divides by zero when every node is frozen.
   */
  lemma CreateGroupOutcome(d: Meta, db: string, name: string, t: int)
    requires Inv(d) && d.dataNodes != [] && PolicyErr(d, db, name) == OK
    requires !Covered(d.policies[PolicyIndex(d.policies, db, name)].groups, t)
    ensures var err := CreateGroup(d, db, name, t).err;
            var n := d.policies[PolicyIndex(d.policies, db, name)].replicaN;
            var allFrozen := forall x :: x in NodeIds(d.dataNodes) ==> x in d.frozen;
            && (err == Panic <==> n == 0 && allFrozen)
            && (err == NoReplica <==> n < 0 || (n > 0 && allFrozen))
            && (err == OK <==> n >= 0 && !allFrozen)
  {
    hide PolicyIndex, PoliciesOk, Covered, NewGroup, Available;
    AvailableAre(d.dataNodes, d.frozen);
    var avail := Available(d.dataNodes, d.frozen);
    if avail != [] {
      assert avail[0] in avail;
    }
  }

  /**
   Round-robin placement: a new group has at least one shard, every shard exactly
   min(setting, available) owners, none of them frozen, no node twice in the group, and
   shard ids that were never used.
   */
  lemma CreatedPlacement(d: Meta, db: string, name: string, t: int)
    requires Inv(d) && PolicyErr(d, db, name) == OK && Available(d.dataNodes, d.frozen) != []
    requires d.policies[PolicyIndex(d.policies, db, name)].replicaN >= 0
    ensures var g := Created(d, db, name, t);
            var n := d.policies[PolicyIndex(d.policies, db, name)].replicaN;
            var avail := |Available(d.dataNodes, d.frozen)|;
            && |g.shards| > 0
            && (forall i :: 0 <= i < |g.shards| ==>
                  && g.shards[i].id == d.maxShardID + 1 + i
                  && |g.shards[i].owners| == (if n == 0 then 1 else if n < avail then n else avail))
            && (forall i, x :: 0 <= i < |g.shards| && x in g.shards[i].owners ==>
                  x in NodeIds(d.dataNodes) && x !in d.frozen)
            && EachNodeOnce(g.shards)
  {
    hide ShardsDealt, EachNodeOnce, PolicyIndex, Available, Distinct, PoliciesOk;
    var p := d.policies[PolicyIndex(d.policies, db, name)];
    var avail := Available(d.dataNodes, d.frozen);
    var replicaN := Replicas(p.replicaN, |avail|);
    AvailableClean(d);
    AvailableAre(d.dataNodes, d.frozen);
    MulDivLe(|avail|, replicaN);
    QuotientPositive(|avail|, replicaN);
    RoundRobin(avail, d.index % |avail|, replicaN, d.maxShardID + 1, |avail| / replicaN);
  }

  lemma QuotientPositive(a: nat, b: nat)
    requires 0 < b <= a
    ensures a / b >= 1
  {
    assert a == (a / b) * b + a % b;
  }

  /** The new range is within what a timestamp can hold, and no live group starts there. */
  ghost predicate RangeFree(p: Policy, t: int) {
    p.groupDuration > 0 ==>
      && Truncate(t, p.groupDuration) <= MAX_TIME
      && forall i :: 0 <= i < |p.groups| && !p.groups[i].Deleted() ==> p.groups[i].start != Truncate(t, p.groupDuration)
  }

  lemma RangeFreeCounts(p: Policy, t: int)
    requires p.groupDuration > 0
    ensures RangeFree(p, t) <==>
      Truncate(t, p.groupDuration) <= MAX_TIME && Sum(p.groups, LiveCounter(Truncate(t, p.groupDuration))) == 0
  {
    hide Truncate;
    var s := Truncate(t, p.groupDuration);
    if i :| 0 <= i < |p.groups| && !p.groups[i].Deleted() && p.groups[i].start == s {
      SumAt(p.groups, i, LiveCounter(s));
    } else {
      SumZero(p.groups, LiveCounter(s));
    }
  }

  lemma CreatedGroupInList(d: Meta, db: string, name: string, t: int)
    requires PolicyErr(d, db, name) == OK && CreateGroup(d, db, name, t).err == OK
    requires !Covered(d.policies[PolicyIndex(d.policies, db, name)].groups, t)
    ensures Available(d.dataNodes, d.frozen) != []
    ensures Replicas(d.policies[PolicyIndex(d.policies, db, name)].replicaN, |Available(d.dataNodes, d.frozen)|) > 0
    ensures var i := PolicyIndex(d.policies, db, name);
            var p := d.policies[i];
            var e := CreateGroup(d, db, name, t).meta;
            && e.policies == d.policies[i := p.(groups := Sort(p.groups + [Created(d, db, name, t)], GroupLess))]
            && e.maxGroupID == d.maxGroupID + 1 && e.maxShardID == d.maxShardID + |Created(d, db, name, t).shards|
            && e.metaNodes == d.metaNodes && e.dataNodes == d.dataNodes && e.frozen == d.frozen && e.maxNodeID == d.maxNodeID
  {
    hide NewGroup, PolicyIndex, Covered, Available, Sort;
  }

  /** A policy list with a group that is out of range, or with a second live group at the same start, is not well. */
  lemma BadGroupBreaks(ps: seq<Policy>, i: nat, g: Group, mg: nat, ms: nat, mg': nat, ms': nat)
    requires i < |ps| && ps[i].groupDuration > 0 && PolicyOk(ps[i], mg', ms')
    requires !g.Deleted() && (!GroupOk(g, ps[i].groupDuration, mg, ms) || Sum(ps[i].groups, LiveCounter(g.start)) != 0)
    ensures !PoliciesOk(ps[i := ps[i].(groups := Sort(ps[i].groups + [g], GroupLess))], mg, ms)
  {
    hide Sort, GroupOk;
    var gs := Sort(ps[i].groups + [g], GroupLess);
    var q := ps[i].(groups := gs);
    if PoliciesOk(ps[i := q], mg, ms) {
      assert PolicyOk(ps[i := q][i], mg, ms);
      SortMember(ps[i].groups + [g], GroupLess, g);
      var k :| 0 <= k < |gs| && gs[k] == g;
      SortSum(ps[i].groups + [g], GroupLess, LiveCounter(g.start));
      SumSnoc(ps[i].groups, g, LiveCounter(g.start));
    }
  }

  lemma CreatedOkExact(d: Meta, db: string, name: string, t: int)
    requires NodesOk(d) && PolicyErr(d, db, name) == OK && Available(d.dataNodes, d.frozen) != []
    requires Replicas(d.policies[PolicyIndex(d.policies, db, name)].replicaN, |Available(d.dataNodes, d.frozen)|) > 0
    ensures var p := d.policies[PolicyIndex(d.policies, db, name)];
            var g := Created(d, db, name, t);
            && !g.Deleted() && g.id == d.maxGroupID + 1
            && (forall i :: 0 <= i < |g.shards| ==> g.shards[i].id == d.maxShardID + 1 + i)
            && (RangeFree(p, t) <==>
                  && GroupOk(g, p.groupDuration, d.maxGroupID + 1, d.maxShardID + |g.shards|)
                  && (p.groupDuration > 0 ==> Sum(p.groups, LiveCounter(g.start)) == 0))
  {
    hide NewGroup, PolicyIndex, Available, Distinct, GroupOk, LiveCounter, RangeFree, Truncate;
    var p := d.policies[PolicyIndex(d.policies, db, name)];
    var avail := Available(d.dataNodes, d.frozen);
    var replicaN := Replicas(p.replicaN, |avail|);
    AvailableClean(d);
    NewGroupOk(d, p, t, avail, replicaN);
    NewGroupStart(d, p, t, avail, replicaN);
    if p.groupDuration > 0 {
      RangeFreeCounts(p, t);
    } else {
      NoRange(p, t);
    }
  }

  /** Creating a group keeps the invariant exactly when its range is free; a time beyond the largest can have it taken. */
  lemma CreateGroupInvExact(d: Meta, db: string, name: string, t: int)
    requires Inv(d) && PolicyErr(d, db, name) == OK && CreateGroup(d, db, name, t).err == OK
    requires !Covered(d.policies[PolicyIndex(d.policies, db, name)].groups, t)
    ensures Inv(CreateGroup(d, db, name, t).meta) <==> RangeFree(d.policies[PolicyIndex(d.policies, db, name)], t)
  {
    hide PoliciesOk, PolicyIndex, Covered, Available, Sort, GroupOk, LiveCounter, RangeFree, CreateGroup, Created;
    CreatedGroupInList(d, db, name, t);
    CreatedOkExact(d, db, name, t);
    var i := PolicyIndex(d.policies, db, name);
    var p := d.policies[i];
    var g := Created(d, db, name, t);
    PolicyOkAt(d.policies, i, d.maxGroupID, d.maxShardID);
    if RangeFree(p, t) {
      WithGroupPoliciesOk(d.policies, i, g, d.maxGroupID, d.maxShardID);
    } else {
      if p.groupDuration <= 0 {
        NoRange(p, t);
      }
      BadGroupBreaks(d.policies, i, g, d.maxGroupID + 1, d.maxShardID + |g.shards|, d.maxGroupID, d.maxShardID);
    }
  }

  lemma NoRange(p: Policy, t: int)
    requires p.groupDuration <= 0
    ensures RangeFree(p, t)
  {
  }

  lemma CreateGroupKeepsInv(d: Meta, db: string, name: string, t: int)
    requires Inv(d) && t <= MAX_TIME
    ensures Inv(CreateGroup(d, db, name, t).meta)
  {
    hide PoliciesOk, NewGroup, PolicyIndex, Covered, Available, Distinct, Sort, GroupOk, LiveCounter, RangeFree;
    var r := CreateGroup(d, db, name, t);
    if r.meta != d {
      var p := d.policies[PolicyIndex(d.policies, db, name)];
      PolicyOkAt(d.policies, PolicyIndex(d.policies, db, name), d.maxGroupID, d.maxShardID);
      if p.groupDuration > 0 {
        NoLiveAt(p, t, d.maxGroupID, d.maxShardID);
        TruncateAligned(t, p.groupDuration);
        RangeFreeCounts(p, t);
      } else {
        NoRange(p, t);
      }
      CreateGroupInvExact(d, db, name, t);
    }
  }

  lemma NewGroupStart(d: Meta, p: Policy, t: int, avail: seq<nat>, replicaN: nat)
    requires avail != [] && replicaN > 0
    ensures NewGroup(d, p, t, avail, replicaN).start == Truncate(t, p.groupDuration)
    ensures NewGroup(d, p, t, avail, replicaN).id == d.maxGroupID + 1
    ensures !NewGroup(d, p, t, avail, replicaN).Deleted()
  {
  }

  lemma PolicyOkAt(ps: seq<Policy>, i: nat, mg: nat, ms: nat)
    requires PoliciesOk(ps, mg, ms) && i < |ps|
    ensures PolicyOk(ps[i], mg, ms)
  {
  }

  // ---------- time ranges ----------

  /** Beyond the largest time the window of the last group can be taken twice: both then contain that time. */
  lemma SecondGroupAtEnd(d: Meta, db: string, name: string, t: int, g: Group)
    requires Inv(d) && PolicyErr(d, db, name) == OK && CreateGroup(d, db, name, t).err == OK && t > MAX_TIME
    requires !Covered(d.policies[PolicyIndex(d.policies, db, name)].groups, t)
    requires var p := d.policies[PolicyIndex(d.policies, db, name)];
             p.groupDuration > 0 && g in p.groups && g.Covers(MAX_TIME) && g.start == Truncate(t, p.groupDuration)
    ensures var i := PolicyIndex(d.policies, db, name);
            var gs := CreateGroup(d, db, name, t).meta.policies[i].groups;
            exists h :: g in gs && h in gs && h != g && h.Covers(MAX_TIME)
  {
    CreatedGroupInList(d, db, name, t);
    hide PolicyIndex, Covered, Available, Sort, CreateGroup, ShardsDealt, PoliciesOk;
    var i := PolicyIndex(d.policies, db, name);
    var p := d.policies[i];
    var h := Created(d, db, name, t);
    PolicyOkAt(d.policies, i, d.maxGroupID, d.maxShardID);
    var k :| 0 <= k < |p.groups| && p.groups[k] == g;
    assert GroupOk(p.groups[k], p.groupDuration, d.maxGroupID, d.maxShardID);
    SortMember(p.groups + [h], GroupLess, g);
    SortMember(p.groups + [h], GroupLess, h);
    assert h in p.groups + [h] && g in p.groups + [h];
    assert h.Covers(MAX_TIME);
  }

  lemma AlignedApart(a: int, b: int, d: int)
    requires d > 0 && a % d == 0 && b % d == 0 && a < b
    ensures a + d <= b
  {
    var p, q := a / d, b / d;
    assert a == p * d && b == q * d;
    assert b - a == (q - p) * d;
    if q - p >= 1 {
      AtLeastOnce(q - p, d);
    } else {
      NotPositive(p - q, d);
    }
  }

  lemma NotPositive(m: nat, d: nat)
    ensures m * d >= 0
  {
  }

  /** In every reachable state the live groups of a policy are aligned and do not overlap. */
  lemma LiveGroupsDisjoint(d: Meta, k: nat, i: nat, j: nat, t: int)
    requires Inv(d) && k < |d.policies| && d.policies[k].groupDuration > 0
    requires i < j < |d.policies[k].groups|
    requires !d.policies[k].groups[i].Deleted() && !d.policies[k].groups[j].Deleted()
    ensures d.policies[k].groups[i].start % d.policies[k].groupDuration == 0
    ensures !(d.policies[k].groups[i].Contains(t) && d.policies[k].groups[j].Contains(t))
  {
    hide Clean;
    var p := d.policies[k];
    var g, h := p.groups[i], p.groups[j];
    PolicyOkAt(d.policies, k, d.maxGroupID, d.maxShardID);
    assert GroupOk(g, p.groupDuration, d.maxGroupID, d.maxShardID);
    assert GroupOk(h, p.groupDuration, d.maxGroupID, d.maxShardID);
    SumTwo(p.groups, i, j, LiveCounter(g.start));
    if g.start < h.start {
      AlignedApart(g.start, h.start, p.groupDuration);
    } else if h.start < g.start {
      AlignedApart(h.start, g.start, p.groupDuration);
    }
  }

  /** Group ids are never used twice in a policy. */
  lemma GroupIdsDistinct(p: Policy, mg: nat, ms: nat, i: nat, j: nat)
    requires PolicyOk(p, mg, ms) && i < j < |p.groups|
    ensures p.groups[i].id != p.groups[j].id
  {
    SumTwo(p.groups, i, j, IdCounter(p.groups[i].id));
  }

  /** The new group covers its timestamp exactly when that is not beyond the largest one. */
  lemma CreatedCoversExact(d: Meta, p: Policy, t: int, avail: seq<nat>, replicaN: nat)
    requires avail != [] && replicaN > 0 && p.groupDuration > 0
    ensures NewGroup(d, p, t, avail, replicaN).Covers(t) <==> t <= MAX_TIME
  {
    hide ShardsDealt, Truncate;
    TruncateAligned(t, p.groupDuration);
  }

  /** What a successful creation adds to the policy, and that it adds nothing else. */
  lemma CreateAddsGroup(d: Meta, db: string, name: string, t: int)
    requires CreateGroup(d, db, name, t).err == OK
    requires !Covered(d.policies[PolicyIndex(d.policies, db, name)].groups, t)
    ensures var i := PolicyIndex(d.policies, db, name);
            var e := CreateGroup(d, db, name, t).meta;
            && PolicyIndex(e.policies, db, name) == i
            && e.policies == d.policies[i := d.policies[i].(groups := e.policies[i].groups)]
            && (forall h :: h in e.policies[i].groups <==> h in d.policies[i].groups || h == Created(d, db, name, t))
            && e.maxShardID == d.maxShardID + |Created(d, db, name, t).shards|
  {
    hide NewGroup, Available, Sort, PolicyIndex;
    var i := PolicyIndex(d.policies, db, name);
    var p := d.policies[i];
    var g := Created(d, db, name, t);
    var gs := Sort(p.groups + [g], GroupLess);
    forall h ensures h in gs <==> h in p.groups || h == g {
      SortMember(p.groups + [g], GroupLess, h);
    }
    SamePolicyIndex(d.policies, i, p.(groups := gs), db, name);
  }

  lemma NothingBeyondMax(p: Policy, t: int, mg: nat, ms: nat)
    requires PolicyOk(p, mg, ms) && p.groupDuration > 0 && t > MAX_TIME
    ensures !Covered(p.groups, t)
  {
    hide Clean;
    forall i | 0 <= i < |p.groups| ensures !p.groups[i].Covers(t) {
      assert GroupOk(p.groups[i], p.groupDuration, mg, ms);
    }
  }

  lemma CoveredAfterCreate(d: Meta, db: string, name: string, t: int)
    requires Inv(d) && CreateGroup(d, db, name, t).err == OK
    requires d.policies[PolicyIndex(d.policies, db, name)].groupDuration > 0
    requires !Covered(d.policies[PolicyIndex(d.policies, db, name)].groups, t)
    ensures var e := CreateGroup(d, db, name, t).meta;
            && PolicyErr(e, db, name) == OK
            && (Covered(e.policies[PolicyIndex(e.policies, db, name)].groups, t) <==> t <= MAX_TIME)
  {
    CreateAddsGroup(d, db, name, t);
    hide PoliciesOk, NewGroup, Available, Sort, PolicyIndex;
    var i := PolicyIndex(d.policies, db, name);
    var p := d.policies[i];
    var g := Created(d, db, name, t);
    var avail := Available(d.dataNodes, d.frozen);
    var gs := CreateGroup(d, db, name, t).meta.policies[i].groups;
    CreatedCoversExact(d, p, t, avail, Replicas(p.replicaN, |avail|));
    assert g in gs;
    var k :| 0 <= k < |gs| && gs[k] == g;
    forall h | h in gs ensures h.Covers(t) ==> h == g {
      if h in p.groups {
        var j :| 0 <= j < |p.groups| && p.groups[j] == h;
      }
    }
  }

  /**
   Creating a group again for the same time changes nothing, not even the index,
   exactly when the time is not beyond the largest timestamp.
   */
  lemma CreateIdempotentExact(d: Meta, db: string, name: string, t: int, now: int, later: int)
    requires Inv(d) && PolicyErr(d, db, name) == OK
    requires d.policies[PolicyIndex(d.policies, db, name)].groupDuration > 0
    requires Apply(d, CreateShardGroup(db, name, t), now).err == OK
    ensures var e := Apply(d, CreateShardGroup(db, name, t), now).meta;
            Apply(e, CreateShardGroup(db, name, t), later).meta == e <==> t <= MAX_TIME
  {
    hide PoliciesOk, NewGroup, Available, Sort, PolicyIndex, Covered;
    var c := CreateShardGroup(db, name, t);
    var i := PolicyIndex(d.policies, db, name);
    var p := d.policies[i];
    if NothingToDo(d, c) {
      PolicyOkAt(d.policies, i, d.maxGroupID, d.maxShardID);
      if t > MAX_TIME {
        NothingBeyondMax(p, t, d.maxGroupID, d.maxShardID);
      }
    } else {
      var e := CreateGroup(d, db, name, t).meta;
      CoveredAfterCreate(d, db, name, t);
      CreateAddsGroup(d, db, name, t);
      var f := e.(index := e.index + 1);
      assert Apply(d, c, now).meta == f;
      assert Covered(f.policies[PolicyIndex(f.policies, db, name)].groups, t) <==> t <= MAX_TIME;
      if t > MAX_TIME {
        assert !NothingToDo(f, c);
        assert Apply(f, c, later).err == OK;
      }
    }
  }

  lemma {:induction false} SamePolicyIndex(ps: seq<Policy>, i: nat, q: Policy, db: string, name: string)
    requires i < |ps| && q.db == ps[i].db && q.name == ps[i].name
    ensures PolicyIndex(ps[i := q], db, name) == PolicyIndex(ps, db, name)
  {
    if i > 0 {
      SamePolicyIndex(ps[1..], i - 1, q, db, name);
      assert ps[i := q][1..] == ps[1..][i - 1 := q];
    } else {
      assert ps[0 := q][1..] == ps[1..];
    }
  }

  // ---------- pruning ----------

  lemma {:induction false} RemainingSum(gs: seq<Group>, expiration: int, f: Group -> nat)
    ensures Sum(Remaining(gs, expiration), f) <= Sum(gs, f)
  {
    if gs != [] {
      var n := |gs| - 1;
      RemainingSum(gs[..n], expiration, f);
      var front := Remaining(gs[..n], expiration);
      SumSnoc(front, gs[n], f);
      assert front + [] == front;
    }
  }

  lemma PrunedPolicyOk(p: Policy, expiration: int, mg: nat, ms: nat)
    requires PolicyOk(p, mg, ms)
    ensures PolicyOk(p.(groups := Remaining(p.groups, expiration)), mg, ms)
    ensures forall x: nat ::
              PolicyShardCounter(x)(p.(groups := Remaining(p.groups, expiration))) <= PolicyShardCounter(x)(p)
  {
    hide GroupOk, Remaining, Expired, LiveCounter, ShardCounter, IdCounter;
    var gs := Remaining(p.groups, expiration);
    RemainingAre(p.groups, expiration);
    forall i | 0 <= i < |gs| ensures GroupOk(gs[i], p.groupDuration, mg, ms) {
      assert gs[i] in gs;
      var j :| 0 <= j < |p.groups| && p.groups[j] == gs[i];
    }
    forall s ensures Sum(gs, LiveCounter(s)) <= Sum(p.groups, LiveCounter(s)) {
      RemainingSum(p.groups, expiration, LiveCounter(s));
    }
    forall x: nat
      ensures Sum(gs, ShardCounter(x)) <= Sum(p.groups, ShardCounter(x))
      ensures Sum(gs, IdCounter(x)) <= Sum(p.groups, IdCounter(x))
    {
      RemainingSum(p.groups, expiration, ShardCounter(x));
      RemainingSum(p.groups, expiration, IdCounter(x));
    }
  }

  lemma PruneKeepsInv(d: Meta, expiration: int)
    requires Inv(d)
    ensures Inv(d.(policies := PrunePolicies(d.policies, expiration)))
  {
    hide PolicyOk, Remaining;
    var ps, qs := d.policies, PrunePolicies(d.policies, expiration);
    forall i | 0 <= i < |ps|
      ensures PolicyOk(qs[i], d.maxGroupID, d.maxShardID)
      ensures forall x: nat :: PolicyShardCounter(x)(qs[i]) <= PolicyShardCounter(x)(ps[i])
    {
      PrunedPolicyOk(ps[i], expiration, d.maxGroupID, d.maxShardID);
    }
    forall x: nat ensures Sum(qs, PolicyShardCounter(x)) <= 1 {
      SumLe(qs, ps, PolicyShardCounter(x));
    }
  }

  // ---------- runs ----------

  /** Shards are only given to real nodes, and groups only created for times that exist. */
  predicate Legal(c: Cmd) {
    match c
    case CreateShardGroup(_, _, t) => t <= MAX_TIME
    case AddShardOwner(_, node) => node != 0
    case _ => true
  }

  lemma ApplyKeepsInv(d: Meta, c: Cmd, now: int)
    requires Inv(d) && Legal(c) && now != 0
    ensures Inv(Apply(d, c, now).meta)
    ensures Apply(d, c, now).err != NoNewOwner
  {
    hide PoliciesOk, CreateGroup, CreateNode, DeleteNode, Freeze, Unfreeze, Reown, DeleteGroup, PrunePolicies;
    hide NothingToDo, NodesOk;
    match c {
      case CreateDataNode(host, tcpHost) => CreateNodeKeepsInv(d, host, tcpHost);
      case DeleteDataNode(id) => DeleteNodeKeepsInv(d, id, now);
      case FreezeDataNode(id) => FreezeKeepsInv(d, id);
      case UnfreezeDataNode(id) => FreezeKeepsInv(d, id);
      case CreateShardGroup(db, policy, t) => CreateGroupKeepsInv(d, db, policy, t);
      case AddShardOwner(shard, node) => ReownKeepsInv(d, shard, node, true);
      case RemoveShardOwner(shard, node) => ReownKeepsInv(d, shard, node, false);
      case DeleteShardGroup(db, policy, id) => DeleteGroupKeepsInv(d, db, policy, id, now);
      case PruneShardGroups(expiration) => PruneKeepsInv(d, expiration);
    }
    OnlyDeleteRunsOut(d, c, now);
    IndexIrrelevant(Change(d, c, now).meta);
  }

  lemma IndexIrrelevant(d: Meta)
    ensures Inv(d) ==> Inv(d.(index := d.index + 1))
  {
  }

  lemma DeleteNodeKeepsInv(d: Meta, id: nat, now: int)
    requires Inv(d) && now != 0
    ensures Inv(DeleteNode(d, id, now).meta) && DeleteNode(d, id, now).err != NoNewOwner
  {
    hide PoliciesOk, PoliciesRemoved, RemoveFromPolicies, NodesOk, NodeIds;
    if id != 0 && id in NodeIds(d.dataNodes) {
      DeleteDataNodeSafe(d, id, now);
    }
  }

  lemma OnlyDeleteRunsOut(d: Meta, c: Cmd, now: int)
    ensures !c.DeleteDataNode? ==> Change(d, c, now).err != NoNewOwner
  {
    hide PrunePolicies, Sort, NewGroup, Covered, Available, ReownPolicies;
  }

  /** No nodes yet, and policies without groups. */
  ghost predicate Initial(d: Meta) {
    && d.metaNodes == [] && d.dataNodes == [] && d.frozen == []
    && forall i :: 0 <= i < |d.policies| ==> d.policies[i].groups == []
  }

  lemma InitialInv(d: Meta)
    requires Initial(d)
    ensures Inv(d)
  {
    forall x: nat ensures Sum(d.policies, PolicyShardCounter(x)) == 0 {
      SumZero(d.policies, PolicyShardCounter(x));
    }
  }

  ghost predicate Run(ds: seq<Meta>, cs: seq<Cmd>, clocks: seq<int>) {
    && |ds| == |cs| + 1 && |clocks| == |cs|
    && Initial(ds[0])
    && forall i :: 0 <= i < |cs| ==> Legal(cs[i]) && clocks[i] != 0 && ds[i + 1] == Apply(ds[i], cs[i], clocks[i]).meta
  }

  /** A run of any commands. */
  ghost predicate AnyRun(ds: seq<Meta>, cs: seq<Cmd>, clocks: seq<int>) {
    && |ds| == |cs| + 1 && |clocks| == |cs|
    && Initial(ds[0])
    && forall i :: 0 <= i < |cs| ==> clocks[i] != 0 && ds[i + 1] == Apply(ds[i], cs[i], clocks[i]).meta
  }

  /** The invariant holds in every state of every run, whatever the clock says. */
  lemma {:induction false} RunKeepsInv(ds: seq<Meta>, cs: seq<Cmd>, clocks: seq<int>, i: nat)
    requires Run(ds, cs, clocks) && i < |ds|
    ensures Inv(ds[i])
  {
    hide Inv, Apply, Initial;
    if i == 0 {
      InitialInv(ds[0]);
    } else {
      RunKeepsInv(ds, cs, clocks, i - 1);
      ApplyKeepsInv(ds[i - 1], cs[i - 1], clocks[i - 1]);
      assert ds[(i - 1) + 1] == ds[i];
    }
  }
}
