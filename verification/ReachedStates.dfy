/**
 Short runs of metadata commands, worked out state by state: what the other modules say
 can go wrong does go wrong in runs from an empty cluster with one policy.
 */
module ReachedStates {
  import opened Bytes
  import opened Lists
  import opened MetaModel
  import opened MetaOps
  import opened NodeRemoval
  import opened Placement
  import opened OwnedShards
  import Checksums
  import Determinism
  import MetaRuns
  import ReplicaRuns
  import ZeroOwner

  const NODE := NodeInfo(1, "h", "t")
  const SECOND := NodeInfo(2, "i", "u")

  /** One database with one policy. */
  function Cluster(replicaN: int, groups: seq<Group>, nodes: seq<NodeInfo>, frozen: seq<nat>, maxNode: nat, maxGroup: nat,
                   maxShard: nat, index: nat): (d: Meta)
  {
    Meta({"db"}, [Policy("db", "rp", replicaN, 10, groups)], [], nodes, frozen, maxNode, maxGroup, maxShard, index)
  }

  function OneGroup(owners: seq<nat>, deletedAt: int): (g: Group) {
    Group(1, 0, 10, deletedAt, 0, [Shard(1, owners)])
  }

  // ---------- single commands ----------

  lemma Joins(replicaN: int, now: int)
    ensures Apply(Cluster(replicaN, [], [], [], 0, 0, 0, 0), CreateDataNode("h", "t"), now)
         == Result(Cluster(replicaN, [], [NODE], [], 1, 0, 0, 1), OK)
  {
    assert [] + [NODE] == [NODE];
    SortOne(NODE, NodeLess);
  }

  lemma SortOne<T>(x: T, less: (T, T) -> bool)
    ensures Sort([x], less) == [x]
  {
    SortKeepsLast([], x, less);
    assert [] + [x] == [x];
  }

  lemma PolicyIsFirst(d: Meta)
    requires d.databases == {"db"} && |d.policies| == 1 && d.policies[0].db == "db" && d.policies[0].name == "rp"
    ensures PolicyErr(d, "db", "rp") == OK && PolicyIndex(d.policies, "db", "rp") == 0
  {
  }

  lemma DealtOne()
    ensures ShardsDealt([1], 0, 1, 1, 1) == [Shard(1, [1])]
  {
    assert OwnersDealt([1], 0, 1) == [Dealt([1], 0, 0)] == [1];
    assert ShardsDealt([1], 0, 1, 1, 0) == [];
  }

  lemma AvailableOne(frozen: seq<nat>)
    ensures Available([NODE], frozen) == if 1 in frozen then [] else [1]
  {
    assert [NODE][..0] == [];
    assert Available([NODE][..0], frozen) == [];
  }

  lemma GetsGroup(now: int)
    ensures Apply(Cluster(1, [], [NODE], [], 1, 0, 0, 1), CreateShardGroup("db", "rp", 0), now)
         == Result(Cluster(1, [OneGroup([1], 0)], [NODE], [], 1, 1, 1, 2), OK)
  {
    GetsGroupAt(0, now);
  }

  function GroupAt(t: int): (g: Group) {
    Group(1, Truncate(t, 10), EndOf(Truncate(t, 10), 10), 0, 0, [Shard(1, [1])])
  }

  lemma GetsGroupAt(t: int, now: int)
    ensures Apply(Cluster(1, [], [NODE], [], 1, 0, 0, 1), CreateShardGroup("db", "rp", t), now)
         == Result(Cluster(1, [GroupAt(t)], [NODE], [], 1, 1, 1, 2), OK)
  {
    hide Sort, ShardsDealt, Available, PolicyIndex;
    var d := Cluster(1, [], [NODE], [], 1, 0, 0, 1);
    PolicyIsFirst(d);
    AvailableOne([]);
    DealtOne();
    var g := NewGroup(d, d.policies[0], t, [1], 1);
    assert g == GroupAt(t);
    assert d.policies[0].groups + [g] == [g];
    SortOne(g, GroupLess);
    assert d.policies[0 := d.policies[0].(groups := [g])] == [d.policies[0].(groups := [g])];
  }

  lemma DropsOnly(deletedAt: int)
    ensures DropOwner(OneGroup([1], deletedAt).shards, 1) == [Shard(1, [])]
    ensures OrphanIds([Shard(1, [])]) == [1]
  {
    assert WithoutLast([1], 1) == [];
    assert [Shard(1, [])][..0] == [];
    assert OrphanIds([Shard(1, [])][..0]) == [];
  }

  lemma LeavesGroup(now: int)
    ensures RemoveFromPolicies([Policy("db", "rp", 1, 10, [OneGroup([1], 0)])], 1, now)
         == Some([Policy("db", "rp", 1, 10, [OneGroup([], now)])])
  {
    var g := OneGroup([1], 0);
    DropsOnly(0);
    assert RemoveFromGroup(g, 1, now) == Some(OneGroup([], now));
    assert [g][..0] == [];
    assert RemoveFromGroups([g][..0], 1, now) == Some([]);
    assert [] + [OneGroup([], now)] == [OneGroup([], now)];
    assert RemoveFromGroups([g], 1, now) == Some([OneGroup([], now)]);
    var ps := [Policy("db", "rp", 1, 10, [g])];
    assert ps[..0] == [];
    assert RemoveFromPolicies(ps[..0], 1, now) == Some([]);
    assert [] + [ps[0].(groups := [OneGroup([], now)])] == [Policy("db", "rp", 1, 10, [OneGroup([], now)])];
  }

  /** Deleting the only owner stamps the group with the replica's own time. */
  lemma Leaves(now: int)
    ensures Apply(Cluster(1, [OneGroup([1], 0)], [NODE], [], 1, 1, 1, 2), DeleteDataNode(1), now)
         == Result(Cluster(1, [OneGroup([], now)], [], [], 1, 1, 1, 3), OK)
  {
    hide RemoveFromPolicies;
    LeavesGroup(now);
    assert NodeIds([NODE])[0] == 1;
    assert [NODE][..0] == [];
    assert NodesWithout([NODE][..0], 1) == [];
    assert NodesWithout([NODE], 1) == [];
  }

  // ---------- a shard without an owner ----------

  /** Two legal commands and a third: the only shard of a live group has no owner left. */
  lemma OrphanRunExists() returns (ds: seq<Meta>, cs: seq<Cmd>, clocks: seq<int>)
    ensures MetaRuns.Run(ds, cs, clocks) && !NoOrphan(ds[|cs|])
  {
    hide Apply;
    var d0 := Cluster(1, [], [], [], 0, 0, 0, 0);
    var d1 := Cluster(1, [], [NODE], [], 1, 0, 0, 1);
    var d2 := Cluster(1, [OneGroup([1], 0)], [NODE], [], 1, 1, 1, 2);
    Joins(1, 1);
    GetsGroup(1);
    cs := [CreateDataNode("h", "t"), CreateShardGroup("db", "rp", 0), RemoveShardOwner(1, 1)];
    clocks := [1, 1, 1];
    ds := [d0, d1, d2, Apply(d2, cs[2], 1).meta];
    assert MetaRuns.Run(ds, cs, clocks);
    if NoOrphan(ds[3]) {
      RunExact(ds, cs, clocks, 3);
      OwnedBefore(d0, d1, d2);
      assert forall j :: 0 <= j <= 3 ==> NoOrphan(ds[j]);
      assert KeepsOwners(ds[2], cs[2]);
      LastOwner();
    }
  }

  lemma OwnedBefore(d0: Meta, d1: Meta, d2: Meta)
    requires d0 == Cluster(1, [], [], [], 0, 0, 0, 0) && d1 == Cluster(1, [], [NODE], [], 1, 0, 0, 1)
    requires d2 == Cluster(1, [OneGroup([1], 0)], [NODE], [], 1, 1, 1, 2)
    ensures NoOrphan(d0) && NoOrphan(d1) && NoOrphan(d2)
  {
  }

  lemma LastOwner()
    ensures !KeepsOwners(Cluster(1, [OneGroup([1], 0)], [NODE], [], 1, 1, 1, 2), RemoveShardOwner(1, 1))
  {
    var g := OneGroup([1], 0);
    assert Ids(g.shards)[0] == 1;
    assert IndexOf(Ids(g.shards), 1) == 0;
    assert FoundInGroups([g], 1) == Some(Place(g, g.shards[0]));
  }

  // ---------- replicas that diverge ----------

  /**
   Two replicas apply the same commands, one deletes the node at its time 5, the other at
   10: they agree until a prune with limit 7, and then their checksums differ.
   */
  lemma PruneDivergesRun() returns (ds: seq<Meta>, es: seq<Meta>, cs: seq<Cmd>, at: seq<int>, later: seq<int>)
    ensures MetaRuns.Run(ds, cs, at) && MetaRuns.Run(es, cs, later) && |cs| == 4 && cs[3] == PruneShardGroups(7)
    ensures ds[0] == es[0]
    ensures Determinism.Agree(ds[3], es[3])
    ensures Determinism.ChecksumInput(ds[4]) != Determinism.ChecksumInput(es[4])
  {
    hide Apply;
    cs := [CreateDataNode("h", "t"), CreateShardGroup("db", "rp", 0), DeleteDataNode(1), PruneShardGroups(7)];
    at, later := [1, 1, 5, 1], [1, 1, 10, 1];
    var d0 := Cluster(1, [], [], [], 0, 0, 0, 0);
    var d1 := Cluster(1, [], [NODE], [], 1, 0, 0, 1);
    var d2 := Cluster(1, [OneGroup([1], 0)], [NODE], [], 1, 1, 1, 2);
    var d3 := Cluster(1, [OneGroup([], 5)], [], [], 1, 1, 1, 3);
    var e3 := Cluster(1, [OneGroup([], 10)], [], [], 1, 1, 1, 3);
    Joins(1, 1);
    GetsGroup(1);
    Leaves(5);
    Leaves(10);
    ds := [d0, d1, d2, d3, Apply(d3, cs[3], 1).meta];
    es := [d0, d1, d2, e3, Apply(e3, cs[3], 1).meta];
    assert MetaRuns.Run(ds, cs, at);
    assert MetaRuns.Run(es, cs, later);
    StampsDiffer(d3, e3);
  }

  lemma StampsDiffer(d: Meta, e: Meta)
    requires d == Cluster(1, [OneGroup([], 5)], [], [], 1, 1, 1, 3) && e == Cluster(1, [OneGroup([], 10)], [], [], 1, 1, 1, 3)
    ensures Determinism.Agree(d, e)
    ensures Determinism.ChecksumInput(Apply(d, PruneShardGroups(7), 1).meta)
         != Determinism.ChecksumInput(Apply(e, PruneShardGroups(7), 1).meta)
  {
    var a, b := OneGroup([], 5), OneGroup([], 10);
    assert Determinism.NormGroups([a]) == Determinism.NormGroups([b]) == [a.(deletedAt := 1)];
    assert Determinism.NormPolicies(d.policies) == Determinism.NormPolicies(e.policies);
    Determinism.PrunedPolicies(d, 7, 1);
    Determinism.PrunedPolicies(e, 7, 1);
    Determinism.OneRemaining(a, 7);
    Determinism.OneRemaining(b, 7);
    var d', e' := Apply(d, PruneShardGroups(7), 1).meta, Apply(e, PruneShardGroups(7), 1).meta;
    assert d'.policies[0].groups == [] && e'.policies[0].groups == [b];
    assert Determinism.ChecksumInput(d').policies[0] == Determinism.ClearPolicy(d'.policies[0]);
    assert Determinism.ChecksumInput(e').policies[0] == Determinism.ClearPolicy(e'.policies[0]);
    assert |Determinism.ClearPolicy(d'.policies[0]).groups| == 0;
    assert |Determinism.ClearPolicy(e'.policies[0]).groups| == 1;
  }

  /** The same commands in a log, and a checksum behind them: the replica that diverged is stopped. */
  lemma DivergedIsStopped() returns (init: Meta, ss: seq<ReplicaRuns.System>, evs: seq<ReplicaRuns.Event>)
    ensures ReplicaRuns.Run(init, ss, evs) && MetaRuns.Initial(init)
    ensures 0 in ss[|evs|].replicas && 1 in ss[|evs|].replicas && ss[|evs|].stopped * {0, 1} == {1}
    ensures !Determinism.Agree(ss[|evs|].replicas[0].data, ss[|evs|].replicas[1].data)
  {
    hide Apply, Determinism.ChecksumInput, ReplicaRuns.Run, MetaRuns.Initial, Determinism.Agree;
    var ds, es, cs, at, later := PruneDivergesRun();
    init := ds[0];
    ss, evs := Checksums.CheckSeparates(init, cs, ds, es, at, later);
    if Determinism.Agree(ds[4], es[4]) {
      Determinism.AgreeSameChecksum(ds[4], es[4]);
    }
  }

  // ---------- a division by zero ----------

  /** A policy with replica setting 0 and its only node frozen: creating a group panics. */
  lemma PanicRunExists() returns (ds: seq<Meta>, cs: seq<Cmd>, clocks: seq<int>)
    ensures MetaRuns.Run(ds, cs, clocks) && Apply(ds[|cs|], CreateShardGroup("db", "rp", 0), 1).err == Panic
  {
    hide Apply;
    var d0 := Cluster(0, [], [], [], 0, 0, 0, 0);
    var d1 := Cluster(0, [], [NODE], [], 1, 0, 0, 1);
    var d2 := Cluster(0, [], [NODE], [1], 1, 0, 0, 2);
    cs, clocks := [CreateDataNode("h", "t"), FreezeDataNode(1)], [1, 1];
    ds := [d0, d1, d2];
    Joins(0, 1);
    Freezes(d1, d2);
    assert MetaRuns.Run(ds, cs, clocks);
    CannotPlace(d2);
  }

  lemma Freezes(d: Meta, e: Meta)
    requires d == Cluster(0, [], [NODE], [], 1, 0, 0, 1) && e == Cluster(0, [], [NODE], [1], 1, 0, 0, 2)
    ensures Apply(d, FreezeDataNode(1), 1).meta == e
  {
    assert NodeIds([NODE])[0] == 1;
    assert [] + [1 as nat] == [1];
  }

  lemma CannotPlace(d: Meta)
    requires d == Cluster(0, [], [NODE], [1], 1, 0, 0, 2)
    ensures Apply(d, CreateShardGroup("db", "rp", 0), 1).err == Panic
  {
    hide Sort, ShardsDealt, Available, PolicyIndex;
    PolicyIsFirst(d);
    AvailableOne([1]);
  }

  // ---------- two groups for one time ----------

  /** A group for the largest time and one for the next: both live, both contain the largest time. */
  lemma SecondGroupRunExists() returns (ds: seq<Meta>, cs: seq<Cmd>, clocks: seq<int>)
    ensures MetaRuns.AnyRun(ds, cs, clocks)
    ensures cs == [CreateDataNode("h", "t"), CreateShardGroup("db", "rp", MAX_TIME), CreateShardGroup("db", "rp", MAX_TIME + 1)]
    ensures |ds[3].policies| == 1
    ensures exists g, h :: g in ds[3].policies[0].groups && h in ds[3].policies[0].groups && g != h
                           && g.Covers(MAX_TIME) && h.Covers(MAX_TIME)
  {
    hide Apply;
    var d0 := Cluster(1, [], [], [], 0, 0, 0, 0);
    var d1 := Cluster(1, [], [NODE], [], 1, 0, 0, 1);
    var d2 := Cluster(1, [GroupAt(MAX_TIME)], [NODE], [], 1, 1, 1, 2);
    cs := [CreateDataNode("h", "t"), CreateShardGroup("db", "rp", MAX_TIME), CreateShardGroup("db", "rp", MAX_TIME + 1)];
    clocks := [1, 1, 1];
    Joins(1, 1);
    GetsGroupAt(MAX_TIME, 1);
    ds := [d0, d1, d2, Apply(d2, cs[2], 1).meta];
    assert MetaRuns.Run(ds[..3], cs[..2], clocks[..2]);
    MetaRuns.RunKeepsInv(ds[..3], cs[..2], clocks[..2], 2);
    TakenTwice(d2);
  }

  lemma TakenTwice(d: Meta)
    requires d == Cluster(1, [GroupAt(MAX_TIME)], [NODE], [], 1, 1, 1, 2) && MetaRuns.Inv(d)
    ensures var gs := Apply(d, CreateShardGroup("db", "rp", MAX_TIME + 1), 1).meta.policies;
            && |gs| == 1
            && exists g, h :: g in gs[0].groups && h in gs[0].groups && g != h && g.Covers(MAX_TIME) && h.Covers(MAX_TIME)
  {
    hide PolicyIndex, MetaRuns.Inv, CreateGroup, Available;
    var g := GroupAt(MAX_TIME);
    PolicyIsFirst(d);
    assert g.Covers(MAX_TIME) && !g.Covers(MAX_TIME + 1);
    assert !Covered(d.policies[0].groups, MAX_TIME + 1);
    assert NodeIds(d.dataNodes)[0] == 1;
    assert 1 in NodeIds(d.dataNodes) && 1 !in d.frozen;
    MetaRuns.CreateGroupOutcome(d, "db", "rp", MAX_TIME + 1);
    assert g in d.policies[0].groups;
    MetaRuns.SecondGroupAtEnd(d, "db", "rp", MAX_TIME + 1, g);
    CreateKeepsPolicies(d, MAX_TIME + 1);
  }

  lemma CreateKeepsPolicies(d: Meta, t: int)
    ensures |CreateGroup(d, "db", "rp", t).meta.policies| == |d.policies|
  {
    hide Sort, NewGroup, Available, PolicyIndex;
  }

  // ---------- a node that cannot be removed ----------

  function TwoShards(owners: seq<nat>): (g: Group) {
    Group(1, 0, 10, 0, 0, [Shard(1, [1]), Shard(2, owners)])
  }

  lemma SecondJoins(now: int)
    ensures Apply(Cluster(1, [], [NODE], [], 1, 0, 0, 1), CreateDataNode("i", "u"), now)
         == Result(Cluster(1, [], [NODE, SECOND], [], 2, 0, 0, 2), OK)
  {
    assert [NODE] + [SECOND] == [NODE, SECOND];
    SortTwo(NODE, SECOND, NodeLess);
  }

  lemma SortTwo<T>(x: T, y: T, less: (T, T) -> bool)
    requires !less(y, x)
    ensures Sort([x, y], less) == [x, y]
  {
    SortOne(x, less);
    SortKeepsLast([x], y, less);
    assert [x] + [y] == [x, y];
  }

  lemma GetsTwoShards(now: int)
    ensures Apply(Cluster(1, [], [NODE, SECOND], [], 2, 0, 0, 2), CreateShardGroup("db", "rp", 0), now)
         == Result(Cluster(1, [TwoShards([2])], [NODE, SECOND], [], 2, 1, 2, 3), OK)
  {
    hide Sort, ShardsDealt, Available, PolicyIndex;
    var d := Cluster(1, [], [NODE, SECOND], [], 2, 0, 0, 2);
    PolicyIsFirst(d);
    AvailableTwo();
    DealtTwo();
    var g := NewGroup(d, d.policies[0], 0, [1, 2], 1);
    assert g == TwoShards([2]);
    assert d.policies[0].groups + [g] == [g];
    SortOne(g, GroupLess);
    assert d.policies[0 := d.policies[0].(groups := [g])] == [d.policies[0].(groups := [g])];
  }

  lemma AvailableTwo()
    ensures Available([NODE, SECOND], []) == [1, 2]
  {
    assert [NODE, SECOND][..1] == [NODE];
    AvailableOne([]);
  }

  lemma DealtTwo()
    ensures ShardsDealt([1, 2], 0, 1, 1, 2) == [Shard(1, [1]), Shard(2, [2])]
  {
    hide ShardsDealt;
    ShardDealtAt([1, 2], 0, 1, 1, 2, 0);
    ShardDealtAt([1, 2], 0, 1, 1, 2, 1);
    assert OwnersDealt([1, 2], 0, 1) == [1] && OwnersDealt([1, 2], 1, 1) == [2];
  }

  lemma GivenToZero(now: int)
    ensures Apply(Cluster(1, [TwoShards([2])], [NODE, SECOND], [], 2, 1, 2, 3), AddShardOwner(2, 0), now)
         == Result(Cluster(1, [TwoShards([2, 0])], [NODE, SECOND], [], 2, 1, 2, 4), OK)
  {
    var g := TwoShards([2]);
    assert Ids(g.shards)[0] == 1 && Ids(g.shards)[1] == 2;
    assert IndexOf(Ids(g.shards), 2) == 1;
    assert [2] + [0] == [2, 0 as nat];
    assert g.shards[1 := Shard(2, [2, 0])] == TwoShards([2, 0]).shards;
    assert ReownShards(g.shards, 2, 0, true) == Some(TwoShards([2, 0]).shards);
    assert g.(shards := TwoShards([2, 0]).shards) == TwoShards([2, 0]);
    assert [TwoShards([2, 0])] + [g][1..] == [TwoShards([2, 0])];
    assert ReownGroups([g], 2, 0, true) == Some([TwoShards([2, 0])]);
  }

  lemma CannotLeaveTwo()
    ensures ZeroOwner.CannotLeave(TwoShards([2, 0]), 1)
  {
    hide Freq, OrphanIds, DropOwner;
    var shards := TwoShards([2, 0]).shards;
    DropsFirst();
    TwoFreqs();
    assert 0 in shards[1].owners && 2 in shards[1].owners;
    var others := FreqMap(shards) - {1};
    assert others.Keys == {0, 2};
    assert ZeroOwner.Room(others) == {};
  }

  lemma DropsFirst()
    ensures OrphanIds(DropOwner(TwoShards([2, 0]).shards, 1)) == [1]
  {
    var dropped := DropOwner(TwoShards([2, 0]).shards, 1);
    assert WithoutLast([1], 1) == [] && WithoutLast([2, 0], 1) == [2, 0];
    assert dropped == [Shard(1, []), Shard(2, [2, 0])];
    assert dropped[..1] == [Shard(1, [])] && dropped[..1][..0] == [];
    assert OrphanIds(dropped[..1]) == [1];
  }

  lemma TwoFreqs()
    ensures Freq(TwoShards([2, 0]).shards, 0) == 1 && Freq(TwoShards([2, 0]).shards, 2) == 1
  {
    hide Freq;
    var a, b := Shard(1, [1]), Shard(2, [2, 0]);
    assert TwoShards([2, 0]).shards == [] + [a] + [b];
    assert a.owners == [1] && b.owners == [2] + [0];
    forall x ensures Freq([] + [a] + [b], x) == multiset(a.owners)[x] + multiset(b.owners)[x] {
      FreqSnoc([], a, x);
      FreqSnoc([] + [a], b, x);
      FreqNone(x);
    }
  }

  lemma FreqNone(x: nat)
    ensures Freq([], x) == 0
  {
  }

  lemma FreqSnoc(shards: seq<Shard>, s: Shard, x: nat)
    ensures Freq(shards + [s], x) == Freq(shards, x) + multiset(s.owners)[x]
  {
    assert (shards + [s])[..|shards|] == shards;
  }

  /** A shard given to node 0 besides its owner is enough: the other node cannot be removed. */
  lemma CannotLeaveRunExists() returns (ds: seq<Meta>, cs: seq<Cmd>, clocks: seq<int>)
    ensures MetaRuns.AnyRun(ds, cs, clocks) && Apply(ds[|cs|], DeleteDataNode(1), 1).err == NoNewOwner
    ensures forall i :: 0 <= i < |cs| ==> MetaRuns.Legal(cs[i]) || cs[i] == AddShardOwner(2, 0)
  {
    hide Apply;
    var d := Cluster(1, [TwoShards([2, 0])], [NODE, SECOND], [], 2, 1, 2, 4);
    ds := [Cluster(1, [], [], [], 0, 0, 0, 0), Cluster(1, [], [NODE], [], 1, 0, 0, 1),
           Cluster(1, [], [NODE, SECOND], [], 2, 0, 0, 2), Cluster(1, [TwoShards([2])], [NODE, SECOND], [], 2, 1, 2, 3), d];
    cs := [CreateDataNode("h", "t"), CreateDataNode("i", "u"), CreateShardGroup("db", "rp", 0), AddShardOwner(2, 0)];
    clocks := [1, 1, 1, 1];
    Joins(1, 1);
    SecondJoins(1);
    GetsTwoShards(1);
    GivenToZero(1);
    CannotBeDeleted(d);
  }

  lemma CannotBeDeleted(d: Meta)
    requires d == Cluster(1, [TwoShards([2, 0])], [NODE, SECOND], [], 2, 1, 2, 4)
    ensures Apply(d, DeleteDataNode(1), 1).err == NoNewOwner
  {
    hide DeleteNode, ZeroOwner.CannotLeave;
    CannotLeaveTwo();
    assert ZeroOwner.CannotLeave(d.policies[0].groups[0], 1);
    assert NodeIds(d.dataNodes)[0] == 1;
    ZeroOwner.DeleteFailsExact(d, 1, 1);
  }
}
