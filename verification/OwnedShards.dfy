/**
 Whether every shard that can still be written to has an owner (services/meta/data.go).
 Every command keeps that, except taking a shard's last owner away.
 */
module OwnedShards {
  import opened AnyRuns
  import opened Bytes
  import opened MetaModel
  import opened MetaOps
  import opened MetaRuns
  import opened NodeRemoval

  ghost predicate GroupOwned(g: Group) {
    g.Deleted() || forall i :: 0 <= i < |g.shards| ==> g.shards[i].owners != []
  }

  ghost predicate GroupsOwned(gs: seq<Group>) {
    forall i :: 0 <= i < |gs| ==> GroupOwned(gs[i])
  }

  ghost predicate PoliciesOwned(ps: seq<Policy>) {
    forall i :: 0 <= i < |ps| ==> GroupsOwned(ps[i].groups)
  }

  /** Every shard of every group that is not marked deleted has an owner. */
  ghost predicate NoOrphan(d: Meta) {
    PoliciesOwned(d.policies)
  }

  // ---------- the first shard with an id ----------

  datatype Place = Place(group: Group, shard: Shard)

  function FoundInGroups(gs: seq<Group>, id: nat): (r: Option<Place>) {
    if gs == [] then None
    else
      var i := IndexOf(Ids(gs[0].shards), id);
      if i < |gs[0].shards| then Some(Place(gs[0], gs[0].shards[i])) else FoundInGroups(gs[1..], id)
  }

  function Found(ps: seq<Policy>, id: nat): (r: Option<Place>) {
    if ps == [] then None
    else
      var r := FoundInGroups(ps[0].groups, id);
      if r.Some? then r else Found(ps[1..], id)
  }

  /** Taking the node away leaves an owner, or it does not matter. */
  predicate OwnerLeft(r: Option<Place>, node: nat) {
    r.None? || r.value.group.Deleted() || exists x :: x in r.value.shard.owners && x != node
  }

  lemma {:induction false} WithoutMember(owners: seq<nat>, node: nat, x: nat)
    ensures x in Without(owners, node) <==> x in owners && x != node
  {
    if owners != [] {
      var n := |owners| - 1;
      assert owners == owners[..n] + [owners[n]];
      WithoutMember(owners[..n], node, x);
    }
  }

  lemma WithoutEmpty(owners: seq<nat>, node: nat)
    ensures Without(owners, node) != [] <==> exists x :: x in owners && x != node
  {
    hide Without;
    var r := Without(owners, node);
    if r != [] {
      assert r[0] in r;
      WithoutMember(owners, node, r[0]);
    }
    forall x | x in owners && x != node ensures x in r {
      WithoutMember(owners, node, x);
    }
  }

  lemma ReownedGroup(g: Group, id: nat, node: nat, add: bool)
    requires GroupOwned(g) && ReownShards(g.shards, id, node, add).Some?
    ensures var i := IndexOf(Ids(g.shards), id);
            && i < |g.shards|
            && (GroupOwned(g.(shards := ReownShards(g.shards, id, node, add).value)) <==>
                  add || OwnerLeft(Some(Place(g, g.shards[i])), node))
  {
    var i := IndexOf(Ids(g.shards), id);
    WithoutEmpty(g.shards[i].owners, node);
    var h := g.(shards := ReownShards(g.shards, id, node, add).value);
    assert h.shards[i] == Reowned(g.shards[i], node, add);
  }

  lemma {:induction false} ReownedGroups(gs: seq<Group>, id: nat, node: nat, add: bool)
    requires GroupsOwned(gs)
    ensures var r := ReownGroups(gs, id, node, add);
            r.Some? ==> (GroupsOwned(r.value) <==> add || OwnerLeft(FoundInGroups(gs, id), node))
  {
    hide GroupOwned, ReownShards, OwnerLeft;
    if gs != [] {
      var s := ReownShards(gs[0].shards, id, node, add);
      ReownShardsSome(gs[0].shards, id, node, add);
      if s.Some? {
        ReownedGroup(gs[0], id, node, add);
        FirstOwned(gs[0].(shards := s.value), gs[1..]);
      } else {
        ReownedGroups(gs[1..], id, node, add);
        var rest := ReownGroups(gs[1..], id, node, add);
        if rest.Some? {
          FirstOwned(gs[0], rest.value);
        }
      }
    }
  }

  /** A shard changes exactly when there is one with the id. */
  lemma {:induction false} FoundIsReownedIn(gs: seq<Group>, id: nat, node: nat, add: bool)
    ensures ReownGroups(gs, id, node, add).Some? <==> FoundInGroups(gs, id).Some?
  {
    hide ReownShards;
    if gs != [] {
      ReownShardsSome(gs[0].shards, id, node, add);
      FoundIsReownedIn(gs[1..], id, node, add);
    }
  }

  lemma {:induction false} FoundIsReowned(ps: seq<Policy>, id: nat, node: nat, add: bool)
    ensures ReownPolicies(ps, id, node, add).Some? <==> Found(ps, id).Some?
  {
    hide ReownGroups, FoundInGroups;
    if ps != [] {
      FoundIsReownedIn(ps[0].groups, id, node, add);
      FoundIsReowned(ps[1..], id, node, add);
    }
  }

  lemma ReownShardsSome(ss: seq<Shard>, id: nat, node: nat, add: bool)
    ensures ReownShards(ss, id, node, add).Some? <==> IndexOf(Ids(ss), id) < |ss|
  {
  }

  lemma FirstOwned(g: Group, rest: seq<Group>)
    ensures GroupsOwned([g] + rest) <==> GroupOwned(g) && GroupsOwned(rest)
  {
    hide GroupOwned;
    var all := [g] + rest;
    assert all[0] == g && forall i :: 0 <= i < |rest| ==> all[i + 1] == rest[i];
  }

  lemma FirstPolicyOwned(p: Policy, rest: seq<Policy>)
    ensures PoliciesOwned([p] + rest) <==> GroupsOwned(p.groups) && PoliciesOwned(rest)
  {
    hide GroupsOwned;
    var all := [p] + rest;
    assert all[0] == p && forall i :: 0 <= i < |rest| ==> all[i + 1] == rest[i];
  }

  lemma {:induction false} ReownedPolicies(ps: seq<Policy>, id: nat, node: nat, add: bool)
    requires PoliciesOwned(ps)
    ensures var r := ReownPolicies(ps, id, node, add);
            r.Some? ==> (PoliciesOwned(r.value) <==> add || OwnerLeft(Found(ps, id), node))
  {
    hide GroupsOwned, ReownGroups, OwnerLeft, FoundInGroups;
    if ps != [] {
      FoundIsReownedIn(ps[0].groups, id, node, add);
      ReownedGroups(ps[0].groups, id, node, add);
      var s := ReownGroups(ps[0].groups, id, node, add);
      if s.Some? {
        FirstPolicyOwned(ps[0].(groups := s.value), ps[1..]);
      } else {
        ReownedPolicies(ps[1..], id, node, add);
        var rest := ReownPolicies(ps[1..], id, node, add);
        if rest.Some? {
          FirstPolicyOwned(ps[0], rest.value);
        }
      }
    }
  }

  /** Exactly when taking an owner away, or adding one, leaves every live shard owned. */
  lemma ReownExact(d: Meta, shard: nat, node: nat, add: bool)
    requires NoOrphan(d)
    ensures NoOrphan(Reown(d, shard, node, add).meta) <==> add || OwnerLeft(Found(d.policies, shard), node)
  {
    hide ReownPolicies, Found, PoliciesOwned;
    FoundIsReowned(d.policies, shard, node, add);
    ReownedPolicies(d.policies, shard, node, add);
  }

  // ---------- the other commands ----------

  /** Every shard without an owner is listed. */
  ghost predicate Listed(shards: seq<Shard>, orphans: seq<nat>) {
    forall i :: 0 <= i < |shards| && shards[i].owners == [] ==> shards[i].id in orphans
  }

  lemma ListedRest(shards: seq<Shard>, orphans: seq<nat>, n: nat)
    requires Distinct(Ids(shards)) && orphans != [] && Listed(shards, orphans)
    ensures var i := IndexOf(Ids(shards), orphans[0]);
            Listed(if i == |shards| then shards else AddOwner(shards, i, n), orphans[1..])
  {
    var i := IndexOf(Ids(shards), orphans[0]);
    var r := if i == |shards| then shards else AddOwner(shards, i, n);
    forall j | 0 <= j < |r| && r[j].owners == [] ensures r[j].id in orphans[1..] {
      assert Ids(shards)[j] == r[j].id && (i < |shards| ==> Ids(shards)[i] == orphans[0]);
      assert r[j].id in orphans && r[j].id != orphans[0];
    }
  }

  /** Whatever the owners are, a reassignment that succeeds leaves no shard without one. */
  lemma {:induction false} ReassignOwns(shards: seq<Shard>, orphans: seq<nat>, freqs: map<nat, nat>)
    requires Distinct(Ids(shards)) && Listed(shards, orphans) && Reassign(shards, orphans, freqs).Some?
    ensures var r := Reassign(shards, orphans, freqs).value; forall i :: 0 <= i < |r| ==> r[i].owners != []
    decreases |orphans|
  {
    hide Ids, AddOwner, Distinct;
    if orphans != [] {
      hide Listed;
      var n := LeastLoaded(freqs);
      var i := IndexOf(Ids(shards), orphans[0]);
      ListedRest(shards, orphans, n);
      if i == |shards| {
        ReassignOwns(shards, orphans[1..], freqs);
      } else {
        IdsKept(shards, i, n);
        ReassignOwns(AddOwner(shards, i, n), orphans[1..], freqs[n := (if n in freqs then freqs[n] else 0) + 1]);
      }
    }
  }

  lemma RemovedIsOwned(g: Group, id: nat, now: int)
    requires Distinct(Ids(g.shards)) && now != 0 && RemoveFromGroup(g, id, now).Some?
    ensures GroupOwned(RemoveFromGroup(g, id, now).value)
  {
    hide Reassign, FreqMap, OrphanIds, Distinct;
    var dropped := DropOwner(g.shards, id);
    var orphans := OrphanIds(dropped);
    assert Ids(dropped) == Ids(g.shards);
    forall i | 0 <= i < |dropped| && dropped[i].owners == [] ensures dropped[i].id in orphans {
      OrphanMember(dropped, dropped[i].id);
    }
    if |orphans| != |g.shards| {
      ReassignOwns(dropped, orphans, FreqMap(g.shards) - {id});
    }
  }

  lemma DeleteNodeKeeps(d: Meta, id: nat, now: int)
    requires Numbered(d) && NoOrphan(d) && now != 0
    ensures NoOrphan(DeleteNode(d, id, now).meta)
  {
    hide RemoveFromPolicies, RemoveFromGroups, RemoveFromGroup, GroupOwned, NodesOk, Distinct, Ids;
    var r := RemoveFromPolicies(d.policies, id, now);
    if r.Some? {
      forall i, j | 0 <= i < |r.value| && 0 <= j < |r.value[i].groups| ensures GroupOwned(r.value[i].groups[j]) {
        RemovedPolicyAt(d.policies, id, now, i);
        RemovedGroupAt(d.policies[i].groups, id, now, j);
        assert GroupNumbered(d.policies[i].groups[j], d.maxGroupID, d.maxShardID);
        RemovedIsOwned(d.policies[i].groups[j], id, now);
      }
    }
  }

  lemma CreateKeeps(d: Meta, db: string, name: string, t: int)
    requires NoOrphan(d)
    ensures NoOrphan(CreateGroup(d, db, name, t).meta)
  {
    hide CreateGroup;
    var e := CreateGroup(d, db, name, t).meta;
    var g := CreateAdds(d, db, name, t);
    if e != d {
      forall i, j | 0 <= i < |e.policies| && 0 <= j < |e.policies[i].groups| ensures GroupOwned(e.policies[i].groups[j]) {
        assert e.policies[i].groups[j] in e.policies[i].groups;
        assert GroupsOwned(d.policies[i].groups);
      }
    }
  }

  lemma StampKeeps(d: Meta, db: string, name: string, id: nat, now: int)
    requires NoOrphan(d) && now != 0
    ensures NoOrphan(DeleteGroup(d, db, name, id, now).meta)
  {
    hide PolicyIndex, GroupIndex;
    if PolicyErr(d, db, name) == OK {
      assert GroupsOwned(d.policies[PolicyIndex(d.policies, db, name)].groups);
    }
  }

  lemma PruneKeeps(ps: seq<Policy>, expiration: int)
    requires PoliciesOwned(ps)
    ensures PoliciesOwned(PrunePolicies(ps, expiration))
  {
    hide GroupOwned, Remaining;
    forall i, j | 0 <= i < |ps| && 0 <= j < |Remaining(ps[i].groups, expiration)|
      ensures GroupOwned(Remaining(ps[i].groups, expiration)[j])
    {
      RemainingAre(ps[i].groups, expiration);
      assert GroupsOwned(ps[i].groups);
      assert Remaining(ps[i].groups, expiration)[j] in Remaining(ps[i].groups, expiration);
    }
  }

  /** The one command that can orphan a shard does so exactly when it names its last owner. */
  predicate KeepsOwners(d: Meta, c: Cmd) {
    c.RemoveShardOwner? ==> OwnerLeft(Found(d.policies, c.shard), c.node)
  }

  lemma ChangeExact(d: Meta, c: Cmd, now: int)
    requires Numbered(d) && now != 0 && NoOrphan(d)
    ensures NoOrphan(Change(d, c, now).meta) <==> KeepsOwners(d, c)
  {
    hide Numbered, CreateGroup, DeleteNode, Reown, DeleteGroup, PrunePolicies, PoliciesOwned, Found, OwnerLeft;
    match c
    case DeleteDataNode(id) => DeleteNodeKeeps(d, id, now);
    case CreateShardGroup(db, name, t) => CreateKeeps(d, db, name, t);
    case AddShardOwner(shard, node) => ReownExact(d, shard, node, true);
    case RemoveShardOwner(shard, node) => ReownExact(d, shard, node, false);
    case DeleteShardGroup(db, name, id) => StampKeeps(d, db, name, id, now);
    case PruneShardGroups(expiration) => PruneKeeps(d.policies, expiration);
    case _ =>
  }

  lemma ApplyExact(d: Meta, c: Cmd, now: int)
    requires Numbered(d) && now != 0 && NoOrphan(d)
    ensures NoOrphan(Apply(d, c, now).meta) <==> KeepsOwners(d, c)
  {
    hide Numbered, CreateGroup, DeleteNode, CreateNode, Freeze, Unfreeze, Reown, DeleteGroup, PrunePolicies, PoliciesOwned,
      KeepsOwners;
    ChangeExact(d, c, now);
    NothingIsKept(d, c);
    RemovalSucceeds(d, c, now);
  }

  lemma NothingIsKept(d: Meta, c: Cmd)
    ensures !c.RemoveShardOwner? ==> KeepsOwners(d, c)
    ensures NothingToDo(d, c) ==> !c.RemoveShardOwner?
  {
  }

  lemma RemovalSucceeds(d: Meta, c: Cmd, now: int)
    ensures c.RemoveShardOwner? ==> Change(d, c, now).err == OK
  {
    hide ReownPolicies;
  }

  /** In a run of any commands no live shard is ever without an owner if and only if none takes a last owner away. */
  lemma {:induction false} RunExact(ds: seq<Meta>, cs: seq<Cmd>, clocks: seq<int>, i: nat)
    requires AnyRun(ds, cs, clocks) && i < |ds|
    ensures (forall j :: 0 <= j <= i ==> NoOrphan(ds[j])) <==> (forall j :: 0 <= j < i ==> KeepsOwners(ds[j], cs[j]))
  {
    hide Numbered, Apply, NoOrphan, KeepsOwners, Initial;
    if i == 0 {
      InitialOwned(ds[0]);
    } else {
      RunExact(ds, cs, clocks, i - 1);
      RunKeepsNumbers(ds, cs, clocks, i - 1);
      assert ds[(i - 1) + 1] == ds[i];
      if NoOrphan(ds[i - 1]) {
        ApplyExact(ds[i - 1], cs[i - 1], clocks[i - 1]);
      }
    }
  }

  lemma InitialOwned(d: Meta)
    requires Initial(d)
    ensures NoOrphan(d)
  {
  }
}
