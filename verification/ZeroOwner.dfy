/**
 Node 0 as an owner of a shard (services/meta/data.go). No node has that id, but adding
 an owner does not check it, and `newShardOwner` returns 0 when there is no candidate.
 */
module ZeroOwner {
  import opened MetaModel
  import opened MetaOps
  import opened MetaRuns
  import opened NodeRemoval
  import opened OwnedShards
  import opened Placement

  // ---------- adding it ----------

  lemma ZeroInGroups(gs: seq<Group>, id: nat) returns (j: nat, k: nat)
    requires ReownGroups(gs, id, 0, true).Some?
    ensures var hs := ReownGroups(gs, id, 0, true).value;
            j < |hs| && k < |hs[j].shards| && 0 in hs[j].shards[k].owners
  {
    var s := ReownShards(gs[0].shards, id, 0, true);
    if s.Some? {
      j, k := 0, IndexOf(Ids(gs[0].shards), id);
      var t := gs[0].shards[k];
      if 0 !in t.owners {
        assert (t.owners + [0])[|t.owners|] == 0;
      }
    } else {
      j, k := ZeroInGroups(gs[1..], id);
      j := j + 1;
    }
  }

  lemma ZeroAdded(ps: seq<Policy>, id: nat) returns (i: nat, j: nat, k: nat)
    requires ReownPolicies(ps, id, 0, true).Some?
    ensures var qs := ReownPolicies(ps, id, 0, true).value;
            i < |qs| && j < |qs[i].groups| && k < |qs[i].groups[j].shards| && 0 in qs[i].groups[j].shards[k].owners
  {
    hide ReownGroups;
    var s := ReownGroups(ps[0].groups, id, 0, true);
    if s.Some? {
      i := 0;
      j, k := ZeroInGroups(ps[0].groups, id);
    } else {
      i, j, k := ZeroAdded(ps[1..], id);
      i := i + 1;
    }
  }

  lemma CleanHasNoZero(ps: seq<Policy>, i: nat, j: nat, k: nat)
    requires PoliciesClean(ps) && i < |ps| && j < |ps[i].groups| && k < |ps[i].groups[j].shards|
    ensures 0 !in ps[i].groups[j].shards[k].owners
  {
    assert GroupsClean(ps[i].groups);
    assert Clean(ps[i].groups[j].shards);
  }

  lemma ZeroBreaks(ps: seq<Policy>, mg: nat, ms: nat, i: nat, j: nat, k: nat)
    requires i < |ps| && j < |ps[i].groups| && k < |ps[i].groups[j].shards| && 0 in ps[i].groups[j].shards[k].owners
    ensures !PoliciesOk(ps, mg, ms)
  {
    if PoliciesOk(ps, mg, ms) {
      OkIsClean(ps, mg, ms);
      CleanHasNoZero(ps, i, j, k);
    }
  }

  /** Giving a shard to node 0 breaks the invariant exactly when the shard exists. */
  lemma AddZeroExact(d: Meta, shard: nat)
    requires Inv(d)
    ensures Inv(Reown(d, shard, 0, true).meta) <==> Found(d.policies, shard).None?
  {
    hide ReownPolicies, PoliciesOk, NodesOk, Found;
    FoundIsReowned(d.policies, shard, 0, true);
    if ReownPolicies(d.policies, shard, 0, true).Some? {
      var i, j, k := ZeroAdded(d.policies, shard);
      ZeroBreaks(Reown(d, shard, 0, true).meta.policies, d.maxGroupID, d.maxShardID, i, j, k);
    }
  }

  // ---------- removing a node ----------

  /** The places below the count of node 0: each is one more shard that some node can be given first. */
  function Room(freqs: map<nat, nat>): (places: set<(nat, nat)>)
    requires 0 in freqs
  {
    set y, k | y in freqs.Keys && freqs[y] <= k < freqs[0] :: (y, k)
  }

  lemma RoomFilled(freqs: map<nat, nat>, n: nat)
    requires 0 in freqs && IsLeast(freqs, n) && n != 0
    ensures |Room(freqs[n := freqs[n] + 1])| == |Room(freqs)| - 1
  {
    var place := (n, freqs[n]);
    assert Before(freqs, n, 0);
    assert Room(freqs[n := freqs[n] + 1]) == Room(freqs) - {place};
    assert place in Room(freqs);
  }

  lemma NoRoom(freqs: map<nat, nat>)
    requires 0 in freqs && IsLeast(freqs, 0)
    ensures Room(freqs) == {}
  {
  }

  /** With node 0 among the candidates the reassignment runs until none of the others has fewer shards. */
  lemma {:induction false} ZeroStopsReassign(shards: seq<Shard>, orphans: seq<nat>, freqs: map<nat, nat>)
    requires 0 in freqs && forall o :: o in orphans ==> o in Ids(shards)
    ensures Reassign(shards, orphans, freqs).None? <==> |orphans| > |Room(freqs)|
    decreases |orphans|
  {
    hide IsLeast, Room, Ids, AddOwner;
    if orphans != [] {
      var n := LeastLoaded(freqs);
      if n == 0 {
        NoRoom(freqs);
      } else {
        assert orphans[0] in orphans;
        var i := IndexOf(Ids(shards), orphans[0]);
        LeastIsKey(freqs, n);
        IdsKept(shards, i, n);
        RoomFilled(freqs, n);
        ZeroStopsReassign(AddOwner(shards, i, n), orphans[1..], freqs[n := freqs[n] + 1]);
      }
    }
  }

  lemma LeastIsKey(freqs: map<nat, nat>, n: nat)
    requires IsLeast(freqs, n)
    ensures n in freqs
  {
  }

  /** Without node 0 the reassignment fails only for want of any candidate. */
  lemma {:induction false} NoneStopsReassign(shards: seq<Shard>, orphans: seq<nat>, freqs: map<nat, nat>)
    requires 0 !in freqs && forall o :: o in orphans ==> o in Ids(shards)
    ensures Reassign(shards, orphans, freqs).None? <==> orphans != [] && freqs.Keys == {}
    decreases |orphans|
  {
    hide IsLeast, Ids, AddOwner;
    if orphans != [] && freqs.Keys != {} {
      var n := LeastLoaded(freqs);
      LeastIsKey(freqs, n);
      assert orphans[0] in orphans;
      var i := IndexOf(Ids(shards), orphans[0]);
      IdsKept(shards, i, n);
      NoneStopsReassign(AddOwner(shards, i, n), orphans[1..], freqs[n := freqs[n] + 1]);
    }
  }

  /** What `DeleteDataNode` cannot do with a group, read off the group. */
  predicate CannotLeave(g: Group, id: nat) {
    var orphans := OrphanIds(DropOwner(g.shards, id));
    var others := FreqMap(g.shards) - {id};
    && |orphans| < |g.shards|
    && if 0 in others then |orphans| > |Room(others)| else orphans != [] && OwnersOf(g.shards) <= {id}
  }

  lemma OnlyOwner(shards: seq<Shard>, id: nat)
    ensures (FreqMap(shards) - {id}).Keys == {} <==> OwnersOf(shards) <= {id}
  {
    hide OwnersOf, Freq;
    var others := FreqMap(shards) - {id};
    if OwnersOf(shards) <= {id} {
      assert forall x :: x in others.Keys ==> x in OwnersOf(shards) && x != id;
    } else {
      var x :| x in OwnersOf(shards) && x != id;
      assert x in others.Keys;
    }
  }

  lemma OrphansListed(shards: seq<Shard>)
    ensures forall o :: o in OrphanIds(shards) ==> o in Ids(shards)
  {
    hide OrphanIds;
    forall o | o in OrphanIds(shards) ensures o in Ids(shards) {
      OrphanMember(shards, o);
      var i :| 0 <= i < |shards| && shards[i].id == o && shards[i].owners == [];
      assert Ids(shards)[i] == o;
    }
  }

  /** For every group and node: removing the node fails if and only if the group is of that kind. */
  lemma RemovalFailsExact(g: Group, id: nat, now: int)
    ensures RemoveFromGroup(g, id, now).None? <==> CannotLeave(g, id)
  {
    hide OrphanIds, DropOwner, FreqMap, Reassign, Room, Ids, OwnersOf;
    var dropped := DropOwner(g.shards, id);
    var orphans, others := OrphanIds(dropped), FreqMap(g.shards) - {id};
    OrphansListed(dropped);
    OrphanCount(dropped);
    OnlyOwner(g.shards, id);
    if 0 in others {
      ZeroStopsReassign(dropped, orphans, others);
    } else {
      NoneStopsReassign(dropped, orphans, others);
    }
  }

  lemma {:induction false} GroupsFailExact(gs: seq<Group>, id: nat, now: int)
    ensures RemoveFromGroups(gs, id, now).None? <==> exists j :: 0 <= j < |gs| && CannotLeave(gs[j], id)
  {
    hide CannotLeave, RemoveFromGroup;
    if gs != [] {
      var n := |gs| - 1;
      GroupsFailExact(gs[..n], id, now);
      RemovalFailsExact(gs[n], id, now);
      if j :| 0 <= j < n && CannotLeave(gs[..n][j], id) {
        assert CannotLeave(gs[j], id);
      }
      if j :| 0 <= j < |gs| && CannotLeave(gs[j], id) {
        assert j < n ==> CannotLeave(gs[..n][j], id);
      }
    }
  }

  ghost predicate SomeCannotLeave(ps: seq<Policy>, id: nat) {
    exists i, j :: 0 <= i < |ps| && 0 <= j < |ps[i].groups| && CannotLeave(ps[i].groups[j], id)
  }

  lemma {:induction false} PoliciesFailExact(ps: seq<Policy>, id: nat, now: int)
    ensures RemoveFromPolicies(ps, id, now).None? <==> SomeCannotLeave(ps, id)
  {
    hide CannotLeave, RemoveFromGroups;
    if ps != [] {
      var n := |ps| - 1;
      PoliciesFailExact(ps[..n], id, now);
      GroupsFailExact(ps[n].groups, id, now);
      if i, j :| 0 <= i < n && 0 <= j < |ps[..n][i].groups| && CannotLeave(ps[..n][i].groups[j], id) {
        assert CannotLeave(ps[i].groups[j], id);
      }
      if i, j :| 0 <= i < |ps| && 0 <= j < |ps[i].groups| && CannotLeave(ps[i].groups[j], id) {
        assert i < n ==> CannotLeave(ps[..n][i].groups[j], id);
      }
    }
  }

  /** In any metadata, deleting fails for want of an owner if and only if it is a node and some group cannot let it go. */
  lemma DeleteFailsExact(d: Meta, id: nat, now: int)
    ensures DeleteNode(d, id, now).err == NoNewOwner <==>
              id != 0 && id in NodeIds(d.dataNodes) && SomeCannotLeave(d.policies, id)
  {
    hide RemoveFromPolicies, SomeCannotLeave;
    PoliciesFailExact(d.policies, id, now);
  }
}
