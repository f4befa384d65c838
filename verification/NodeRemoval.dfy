/**
 Removing a data node from a shard group: the node gives up its shards, and shards
 left without an owner go, one after the other, to whichever remaining node owns the
 fewest shards of the group.
 */
module NodeRemoval {
  import opened Bytes
  import opened MetaModel

  function Ids(shards: seq<Shard>): (ids: seq<nat>)
    ensures |ids| == |shards|
  {
    seq(|shards|, i requires 0 <= i < |shards| => shards[i].id)
  }

  function DropOwner(shards: seq<Shard>, id: nat): (r: seq<Shard>)
    ensures |r| == |shards|
  {
    seq(|shards|, i requires 0 <= i < |shards| =>
          Shard(shards[i].id, WithoutLast(shards[i].owners, id)))
  }

  function OrphanIds(shards: seq<Shard>): (ids: seq<nat>) {
    if shards == [] then []
    else
      var n := |shards| - 1;
      OrphanIds(shards[..n]) + if shards[n].owners == [] then [shards[n].id] else []
  }

  function AddOwner(shards: seq<Shard>, i: nat, n: nat): (r: seq<Shard>)
    requires i < |shards|
  {
    shards[i := Shard(shards[i].id, shards[i].owners + [n])]
  }

  lemma IdsKept(shards: seq<Shard>, i: nat, n: nat)
    requires i < |shards|
    ensures Ids(AddOwner(shards, i, n)) == Ids(shards)
  {
  }

  /** The reassignment loop: each orphan in turn, by id; None when no node is left to take it. */
  ghost function Reassign(shards: seq<Shard>, orphans: seq<nat>, freqs: map<nat, nat>): (r: Option<seq<Shard>>)
    decreases |orphans|
  {
    if orphans == [] then Some(shards)
    else
      var n := LeastLoaded(freqs);
      if n == 0 then None
      else
        var i := IndexOf(Ids(shards), orphans[0]);
        if i == |shards| then Reassign(shards, orphans[1..], freqs)
        else Reassign(AddOwner(shards, i, n), orphans[1..],
                      freqs[n := (if n in freqs then freqs[n] else 0) + 1])
  }

  /** Owner ids are real and listed once per shard, shard ids once per group. */
  ghost predicate CleanOwners(owners: seq<nat>) {
    Distinct(owners) && 0 !in owners
  }

  ghost predicate Clean(shards: seq<Shard>) {
    && Distinct(Ids(shards))
    && forall i :: 0 <= i < |shards| ==> CleanOwners(shards[i].owners)
  }

  // ---------- dropping the node ----------

  lemma {:induction false} WithoutLastDrops(owners: seq<nat>, id: nat)
    requires Distinct(owners)
    ensures id !in WithoutLast(owners, id) && Distinct(WithoutLast(owners, id))
    ensures forall x :: x in WithoutLast(owners, id) <==> x in owners && x != id
    ensures forall x: nat :: multiset(WithoutLast(owners, id))[x] == if x == id then 0 else multiset(owners)[x]
  {
    if owners != [] {
      var n := |owners| - 1;
      assert owners == owners[..n] + [owners[n]];
      assert owners[n] !in owners[..n];
      WithoutLastDrops(owners[..n], id);
    }
  }

  lemma {:induction false} FreqDrop(shards: seq<Shard>, id: nat, x: nat)
    requires forall i :: 0 <= i < |shards| ==> Distinct(shards[i].owners)
    ensures Freq(DropOwner(shards, id), x) == if x == id then 0 else Freq(shards, x)
  {
    if shards != [] {
      var n := |shards| - 1;
      FreqDrop(shards[..n], id, x);
      assert DropOwner(shards, id)[..n] == DropOwner(shards[..n], id);
      WithoutLastDrops(shards[n].owners, id);
    }
  }

  lemma DropKeepsClean(shards: seq<Shard>, id: nat)
    requires Clean(shards)
    ensures Clean(DropOwner(shards, id)) && Ids(DropOwner(shards, id)) == Ids(shards)
    ensures forall i :: 0 <= i < |shards| ==> id !in DropOwner(shards, id)[i].owners
  {
    assert Ids(DropOwner(shards, id)) == Ids(shards);
    forall i | 0 <= i < |shards|
      ensures CleanOwners(DropOwner(shards, id)[i].owners) && id !in DropOwner(shards, id)[i].owners
    {
      assert CleanOwners(shards[i].owners);
      WithoutLastDrops(shards[i].owners, id);
    }
  }

  /** Without the node, the counts of the group before are the counts of the group after. */
  lemma FreqsAfterDrop(m: map<nat, nat>, shards: seq<Shard>, id: nat)
    requires Clean(shards) && IsFreqMap(m, shards)
    ensures IsFreqMap(m - {id}, DropOwner(shards, id))
    ensures 0 !in m
  {
    forall i | 0 <= i < |shards| ensures Distinct(shards[i].owners) && 0 !in shards[i].owners {
      assert CleanOwners(shards[i].owners);
    }
    forall x: nat ensures Freq(DropOwner(shards, id), x) == if x == id then 0 else Freq(shards, x) {
      FreqDrop(shards, id, x);
    }
    NoZeroFreq(shards);
  }

  lemma {:induction false} NoZeroFreq(shards: seq<Shard>)
    requires forall i :: 0 <= i < |shards| ==> 0 !in shards[i].owners
    ensures Freq(shards, 0) == 0
  {
    if shards != [] {
      NoZeroFreq(shards[..|shards| - 1]);
    }
  }

  // ---------- reassigning ----------

  lemma {:induction false} FreqAdd(shards: seq<Shard>, i: nat, n: nat, x: nat)
    requires i < |shards|
    ensures Freq(AddOwner(shards, i, n), x) == Freq(shards, x) + if x == n then 1 else 0
  {
    var k := |shards| - 1;
    var r := AddOwner(shards, i, n);
    if i == k {
      assert r[..k] == shards[..k];
    } else {
      FreqAdd(shards[..k], i, n, x);
      assert r[..k] == AddOwner(shards[..k], i, n);
    }
  }

  ghost predicate IsOrphan(shards: seq<Shard>, o: nat) {
    exists i :: 0 <= i < |shards| && shards[i].id == o && shards[i].owners == []
  }

  /** `orphans` are ids of shards of the group that have no owner, each once. */
  ghost predicate AreOrphans(shards: seq<Shard>, orphans: seq<nat>) {
    && Distinct(orphans)
    && forall o :: o in orphans ==> IsOrphan(shards, o)
  }

  /** `r` is `shards` with one owner, taken from `nodes`, given to each orphan, and nothing else. */
  ghost predicate Adopted(shards: seq<Shard>, orphans: seq<nat>, nodes: set<nat>, r: seq<Shard>) {
    && |r| == |shards|
    && forall i :: 0 <= i < |r| ==>
         && r[i].id == shards[i].id
         && (r[i].id !in orphans ==> r[i] == shards[i])
         && (r[i].id in orphans ==> |r[i].owners| == 1 && r[i].owners[0] in nodes)
  }

  ghost predicate Balanced(freqs: map<nat, nat>, receivers: set<nat>) {
    forall x, y :: x in receivers && x in freqs && y in freqs ==> freqs[x] <= freqs[y] + 1
  }

  ghost function Receivers(orphans: seq<nat>, r: seq<Shard>): set<nat> {
    set i, x | 0 <= i < |r| && r[i].id in orphans && x in r[i].owners :: x
  }

  lemma AddOwnerStep(shards: seq<Shard>, orphans: seq<nat>, freqs: map<nat, nat>, n: nat, i: nat)
    requires Distinct(Ids(shards)) && orphans != [] && AreOrphans(shards, orphans) && IsFreqMap(freqs, shards)
    requires n in freqs && i == IndexOf(Ids(shards), orphans[0])
    ensures i < |shards| && shards[i].owners == [] && shards[i].id == orphans[0]
    ensures Distinct(orphans)
    ensures var s := AddOwner(shards, i, n);
            && Ids(s) == Ids(shards)
            && AreOrphans(s, orphans[1..])
            && IsFreqMap(freqs[n := freqs[n] + 1], s)
  {
    assert orphans[0] in orphans;
    var o :| 0 <= o < |shards| && shards[o].id == orphans[0] && shards[o].owners == [];
    assert Ids(shards)[o] == orphans[0] && o == i;
    var s := AddOwner(shards, i, n);
    assert Ids(s) == Ids(shards);
    forall x: nat ensures Freq(s, x) == Freq(shards, x) + if x == n then 1 else 0 {
      FreqAdd(shards, i, n, x);
    }
    forall q | q in orphans[1..]
      ensures IsOrphan(s, q)
    {
      assert q in orphans;
      var j :| 0 <= j < |shards| && shards[j].id == q && shards[j].owners == [];
      assert q != orphans[0];
      assert s[j] == shards[j];
    }
  }

  /**
   As long as some node with a real id is left, every orphan finds an owner, nothing
   else changes, the counts stay exact, and no node that was given a shard ends up
   more than one shard ahead of any other candidate.
   */
  lemma {:induction false} ReassignAdoptsAll(
    shards: seq<Shard>, orphans: seq<nat>, freqs: map<nat, nat>, before: set<nat>)
    returns (r: seq<Shard>, after: map<nat, nat>)
    requires Distinct(Ids(shards)) && AreOrphans(shards, orphans) && IsFreqMap(freqs, shards)
    requires freqs.Keys != {} && 0 !in freqs && Balanced(freqs, before)
    ensures Reassign(shards, orphans, freqs) == Some(r)
    ensures Adopted(shards, orphans, freqs.Keys, r)
    ensures after.Keys == freqs.Keys && IsFreqMap(after, r)
    ensures Balanced(after, before + Receivers(orphans, r))
    decreases |orphans|
  {
    hide Adopted, Balanced, AreOrphans, IsFreqMap, Receivers, IndexOf, Ids, Distinct;
    if orphans == [] {
      r, after := shards, freqs;
      AdoptNone(shards, orphans, freqs.Keys);
      assert before + {} == before;
    } else {
      var n := LeastLoaded(freqs);
      var i := IndexOf(Ids(shards), orphans[0]);
      AddOwnerStep(shards, orphans, freqs, n, i);
      var s, f := AddOwner(shards, i, n), freqs[n := freqs[n] + 1];
      BalancedStep(freqs, before, n);
      assert f.Keys == freqs.Keys;
      r, after := ReassignAdoptsAll(s, orphans[1..], f, before + {n});
      AdoptedStep(shards, orphans, freqs.Keys, i, n, r);
      assert before + Receivers(orphans, r) == (before + {n}) + Receivers(orphans[1..], r);
    }
  }

  lemma AdoptNone(shards: seq<Shard>, orphans: seq<nat>, nodes: set<nat>)
    requires orphans == []
    ensures Adopted(shards, orphans, nodes, shards) && Receivers(orphans, shards) == {}
  {
  }

  lemma BalancedStep(freqs: map<nat, nat>, before: set<nat>, n: nat)
    requires IsLeast(freqs, n) && Balanced(freqs, before)
    ensures Balanced(freqs[n := freqs[n] + 1], before + {n})
  {
    forall y | y in freqs ensures freqs[n] <= freqs[y] {
      assert y == n || Before(freqs, n, y);
    }
  }

  lemma AdoptedStep(shards: seq<Shard>, orphans: seq<nat>, nodes: set<nat>, i: nat, n: nat, r: seq<Shard>)
    requires Distinct(Ids(shards)) && orphans != [] && Distinct(orphans) && n in nodes
    requires i < |shards| && shards[i].owners == [] && shards[i].id == orphans[0]
    requires Adopted(AddOwner(shards, i, n), orphans[1..], nodes, r)
    ensures Adopted(shards, orphans, nodes, r)
    ensures Receivers(orphans, r) == {n} + Receivers(orphans[1..], r)
  {
    assert orphans == [orphans[0]] + orphans[1..];
    assert orphans[0] !in orphans[1..];
    forall j | 0 <= j < |r| ensures j != i ==> shards[j].id != orphans[0] {
      assert Ids(shards)[j] == shards[j].id && Ids(shards)[i] == orphans[0];
    }
    assert r[i].owners == [n];
    var all, rest := Receivers(orphans, r), Receivers(orphans[1..], r);
    forall x ensures x in all <==> x == n || x in rest {
      if x in all && x != n {
        var j :| 0 <= j < |r| && r[j].id in orphans && x in r[j].owners;
        assert r[j].id in orphans[1..];
      }
      assert n in r[i].owners;
    }
  }

  // ---------- one group ----------

  function OwnersOf(shards: seq<Shard>): (owners: set<nat>) {
    set i, x | 0 <= i < |shards| && x in shards[i].owners :: x
  }

  lemma OwnerAt(shards: seq<Shard>, x: nat)
    ensures x in OwnersOf(shards) <==> exists i :: 0 <= i < |shards| && x in shards[i].owners
  {
  }

  lemma {:induction false} FreqPositive(shards: seq<Shard>, x: nat)
    ensures Freq(shards, x) > 0 <==> x in OwnersOf(shards)
  {
    hide OwnersOf;
    OwnerAt(shards, x);
    if shards != [] {
      var n := |shards| - 1;
      FreqPositive(shards[..n], x);
      OwnerAt(shards[..n], x);
      assert x in shards[n].owners <==> multiset(shards[n].owners)[x] > 0;
      if i :| 0 <= i < |shards| && x in shards[i].owners {
        assert i < n ==> x in shards[..n][i].owners;
      }
      if i :| 0 <= i < n && x in shards[..n][i].owners {
        assert x in shards[i].owners;
      }
    }
  }

  function FreqMap(shards: seq<Shard>): (m: map<nat, nat>) {
    map n | n in OwnersOf(shards) :: Freq(shards, n)
  }

  lemma FreqMapCounts(shards: seq<Shard>)
    ensures IsFreqMap(FreqMap(shards), shards)
  {
    forall n: nat ensures Freq(shards, n) > 0 <==> n in OwnersOf(shards) {
      FreqPositive(shards, n);
    }
  }

  /** `DeleteDataNode` on one shard group; None is the error "no node can be reassigned". */
  ghost function RemoveFromGroup(g: Group, id: nat, now: int): (r: Option<Group>) {
    var dropped := DropOwner(g.shards, id);
    var orphans := OrphanIds(dropped);
    if |orphans| == |g.shards| then Some(g.(shards := dropped, deletedAt := now))
    else
      match Reassign(dropped, orphans, FreqMap(g.shards) - {id})
      case None => None
      case Some(shards) => Some(g.(shards := shards))
  }

  lemma {:induction false} OrphanMember(shards: seq<Shard>, o: nat)
    ensures o in OrphanIds(shards) <==> IsOrphan(shards, o)
  {
    if shards != [] {
      var n := |shards| - 1;
      OrphanMember(shards[..n], o);
      if i :| 0 <= i < |shards| && shards[i].id == o && shards[i].owners == [] {
        assert i < n ==> shards[..n][i] == shards[i];
      }
      if i :| 0 <= i < n && shards[..n][i].id == o && shards[..n][i].owners == [] {
        assert shards[i] == shards[..n][i];
      }
    }
  }

  lemma {:induction false} OrphansDistinct(shards: seq<Shard>)
    requires Distinct(Ids(shards))
    ensures Distinct(OrphanIds(shards))
  {
    if shards != [] {
      var n := |shards| - 1;
      assert Ids(shards[..n]) == Ids(shards)[..n];
      OrphansDistinct(shards[..n]);
      OrphanMember(shards[..n], shards[n].id);
      assert Ids(shards)[n] == shards[n].id;
      assert forall i :: 0 <= i < n ==> Ids(shards)[i] == shards[..n][i].id;
      assert forall i :: 0 <= i < n ==> shards[..n][i].id != shards[n].id;
      assert shards[n].id !in OrphanIds(shards[..n]);
    }
  }

  lemma {:induction false} OrphanCount(shards: seq<Shard>)
    ensures |OrphanIds(shards)| <= |shards|
    ensures |OrphanIds(shards)| == |shards| <==> forall i :: 0 <= i < |shards| ==> shards[i].owners == []
  {
    if shards != [] {
      var n := |shards| - 1;
      OrphanCount(shards[..n]);
      assert forall i :: 0 <= i < n ==> shards[..n][i] == shards[i];
    }
  }

  lemma OrphanIdsAre(shards: seq<Shard>)
    requires Distinct(Ids(shards))
    ensures AreOrphans(shards, OrphanIds(shards))
    ensures forall i :: 0 <= i < |shards| ==> (shards[i].id in OrphanIds(shards) <==> shards[i].owners == [])
  {
    hide OrphanIds, IsOrphan;
    OrphansDistinct(shards);
    forall o ensures o in OrphanIds(shards) <==> IsOrphan(shards, o) {
      OrphanMember(shards, o);
    }
    forall i | 0 <= i < |shards| ensures IsOrphan(shards, shards[i].id) <==> shards[i].owners == [] {
      OrphanExact(shards, i);
    }
  }

  lemma OrphanExact(shards: seq<Shard>, i: nat)
    requires Distinct(Ids(shards)) && i < |shards|
    ensures IsOrphan(shards, shards[i].id) <==> shards[i].owners == []
  {
    if j :| 0 <= j < |shards| && shards[j].id == shards[i].id && shards[j].owners == [] {
      assert Ids(shards)[i] == Ids(shards)[j];
    }
  }

  /** What holds of a group after a node was removed from it. */
  ghost predicate Removed(g: Group, id: nat, now: int, h: Group) {
    && Clean(h.shards) && Ids(h.shards) == Ids(g.shards)
    && h == g.(shards := h.shards, deletedAt := h.deletedAt)
    // nobody mentions the node
    && (forall i :: 0 <= i < |h.shards| ==> id !in h.shards[i].owners)
    // either nobody else owned anything and the group is marked deleted
    && (if OwnersOf(g.shards) <= {id} then h.deletedAt == now && h.shards == DropOwner(g.shards, id)
        // or every shard has an owner, and every owner already owned a shard of the group
        else
          && h.deletedAt == g.deletedAt
          && (forall i :: 0 <= i < |h.shards| ==> h.shards[i].owners != [])
          && OwnersOf(h.shards) <= OwnersOf(g.shards) - {id}
          && (forall i :: 0 <= i < |h.shards| && DropOwner(g.shards, id)[i].owners != [] ==>
                h.shards[i] == DropOwner(g.shards, id)[i])
          // and nobody who was given a shard is more than one ahead of any other owner
          && (forall x, y :: x in NewOwners(g, id, h) && y in OwnersOf(h.shards) ==>
                Freq(h.shards, x) <= Freq(h.shards, y) + 1))
  }

  /** Nodes that were given an orphaned shard. */
  ghost function NewOwners(g: Group, id: nat, h: Group): set<nat> {
    Receivers(OrphanIds(DropOwner(g.shards, id)), h.shards)
  }

  lemma AllOrphansExact(shards: seq<Shard>, id: nat)
    requires Clean(shards)
    ensures |OrphanIds(DropOwner(shards, id))| == |shards| <==> OwnersOf(shards) <= {id}
    ensures OwnersOf(DropOwner(shards, id)) == OwnersOf(shards) - {id}
  {
    var dropped := DropOwner(shards, id);
    OrphanCount(dropped);
    forall i | 0 <= i < |shards|
      ensures forall x :: x in dropped[i].owners <==> x in shards[i].owners && x != id
    {
      assert CleanOwners(shards[i].owners);
      WithoutLastDrops(shards[i].owners, id);
    }
    if |OrphanIds(dropped)| == |shards| {
      assert forall i :: 0 <= i < |shards| ==> dropped[i].owners == [];
    } else {
      var i :| 0 <= i < |shards| && dropped[i].owners != [];
      assert dropped[i].owners[0] in dropped[i].owners;
      assert dropped[i].owners[0] in OwnersOf(shards);
    }
  }

  lemma CleanAfterAdoption(shards: seq<Shard>, orphans: seq<nat>, nodes: set<nat>, r: seq<Shard>)
    requires Clean(shards) && Adopted(shards, orphans, nodes, r) && 0 !in nodes
    ensures Clean(r) && Ids(r) == Ids(shards)
    ensures OwnersOf(r) <= OwnersOf(shards) + nodes
  {
    assert Ids(r) == Ids(shards);
    forall i | 0 <= i < |r| ensures CleanOwners(r[i].owners) {
      assert CleanOwners(shards[i].owners);
    }
    forall x | x in OwnersOf(r) ensures x in OwnersOf(shards) + nodes {
      var i :| 0 <= i < |r| && x in r[i].owners;
      if r[i].id !in orphans {
        assert x in shards[i].owners;
      }
    }
  }

  /** With clean owner lists the error cannot occur, and the group comes out as it should. */
  lemma RemoveFromGroupSafe(g: Group, id: nat, now: int)
    requires Clean(g.shards)
    ensures RemoveFromGroup(g, id, now).Some?
    ensures Removed(g, id, now, RemoveFromGroup(g, id, now).value)
  {
    var dropped := DropOwner(g.shards, id);
    var orphans := OrphanIds(dropped);
    var freqs := FreqMap(g.shards) - {id};
    DropKeepsClean(g.shards, id);
    AllOrphansExact(g.shards, id);
    if |orphans| != |g.shards| {
      RemoveReassigns(g, id, now);
    }
  }

  lemma RemoveReassigns(g: Group, id: nat, now: int)
    requires Clean(g.shards) && !(OwnersOf(g.shards) <= {id})
    ensures RemoveFromGroup(g, id, now).Some?
    ensures Removed(g, id, now, RemoveFromGroup(g, id, now).value)
  {
    hide Clean, Adopted, IsFreqMap, Freq, OrphanIds, DropOwner, AreOrphans, Receivers, Reassign;
    var dropped := DropOwner(g.shards, id);
    var orphans := OrphanIds(dropped);
    var freqs := FreqMap(g.shards) - {id};
    DropKeepsClean(g.shards, id);
    AllOrphansExact(g.shards, id);
    CleanIds(dropped);
    OrphanIdsAre(dropped);
    FreqMapCounts(g.shards);
    FreqsAfterDrop(FreqMap(g.shards), g.shards, id);
    var r, after := ReassignAdoptsAll(dropped, orphans, freqs, {});
    CleanAfterAdoption(dropped, orphans, freqs.Keys, r);
    assert RemoveFromGroup(g, id, now) == Some(g.(shards := r));
    AdoptedFacts(dropped, orphans, freqs.Keys, id, r);
    BalancedOwners(after, r, orphans);
  }

  /**
   The first shard left without an owner goes to the one of the other owners that has the fewest
   shards of the group, the one with the smallest id among those.
   */
  lemma FirstOrphanTo(g: Group, id: nat, now: int, i: nat) returns (h: Group, n: nat)
    requires Clean(g.shards) && i < |g.shards| && g.shards[i].owners == [id] && !(OwnersOf(g.shards) <= {id})
    requires forall k :: 0 <= k < i ==> g.shards[k].owners != [id] && g.shards[k].owners != []
    ensures RemoveFromGroup(g, id, now) == Some(h) && |h.shards| == |g.shards|
    ensures h.shards[i].owners == [n] && Lightest(g.shards, id, n)
  {
    hide Clean, Adopted, IsFreqMap, Freq, OrphanIds, DropOwner, AreOrphans, Receivers, Balanced, OwnersOf, FreqMap, IsLeast;
    var dropped := DropOwner(g.shards, id);
    var orphans := OrphanIds(dropped);
    var freqs := FreqMap(g.shards) - {id};
    DropKeepsClean(g.shards, id);
    AllOrphansExact(g.shards, id);
    CleanIds(dropped);
    OrphanIdsAre(dropped);
    FreqMapCounts(g.shards);
    FreqsAfterDrop(FreqMap(g.shards), g.shards, id);
    FirstOfOrphans(g.shards, id, i);
    OthersThere(g.shards, id);
    n := LeastLoaded(freqs);
    LeastIsLightest(g.shards, id, n);
    AddOwnerStep(dropped, orphans, freqs, n, i);
    BalancedNone(freqs);
    BalancedStep(freqs, {}, n);
    var f := freqs[n := freqs[n] + 1];
    var r, after := ReassignAdoptsAll(AddOwner(dropped, i, n), orphans[1..], f, {} + {n});
    NotAgain(AddOwner(dropped, i, n), orphans, f.Keys, r, i);
    h := g.(shards := r);
  }

  /** The node is another owner of the group, and none other has fewer shards, or as many and a smaller id. */
  ghost predicate Lightest(shards: seq<Shard>, id: nat, n: nat) {
    && n in OwnersOf(shards) && n != id
    && forall y :: y in OwnersOf(shards) && y != id && y != n ==>
         Freq(shards, n) < Freq(shards, y) || (Freq(shards, n) == Freq(shards, y) && n < y)
  }

  lemma LeastIsLightest(shards: seq<Shard>, id: nat, n: nat)
    requires IsLeast(FreqMap(shards) - {id}, n)
    ensures Lightest(shards, id, n) && n in FreqMap(shards) - {id}
  {
    hide OwnersOf, Freq;
    var m := FreqMap(shards) - {id};
    forall y | y in OwnersOf(shards) && y != id && y != n
      ensures Freq(shards, n) < Freq(shards, y) || (Freq(shards, n) == Freq(shards, y) && n < y)
    {
      assert y in m && Before(m, n, y);
    }
  }

  lemma OthersThere(shards: seq<Shard>, id: nat)
    requires !(OwnersOf(shards) <= {id})
    ensures (FreqMap(shards) - {id}).Keys != {}
  {
    hide OwnersOf, Freq;
    var x :| x in OwnersOf(shards) && x != id;
    assert x in (FreqMap(shards) - {id}).Keys;
  }

  lemma BalancedNone(freqs: map<nat, nat>)
    ensures Balanced(freqs, {})
  {
  }

  lemma FirstOfOrphans(shards: seq<Shard>, id: nat, i: nat)
    requires Clean(shards) && i < |shards| && shards[i].owners == [id]
    requires forall k :: 0 <= k < i ==> shards[k].owners != [id] && shards[k].owners != []
    ensures var dropped := DropOwner(shards, id);
            && OrphanIds(dropped) != [] && OrphanIds(dropped)[0] == shards[i].id
            && i == IndexOf(Ids(dropped), OrphanIds(dropped)[0])
  {
    var dropped := DropOwner(shards, id);
    forall k | 0 <= k < i ensures dropped[k].owners != [] {
      KeepsAnOwner(shards[k].owners, id);
    }
    assert WithoutLast([id], id) == [];
    FirstListed(dropped, i);
    assert Ids(dropped) == Ids(shards);
    var k := IndexOf(Ids(shards), shards[i].id);
    assert Ids(shards)[i] == shards[i].id && Ids(shards)[k] == shards[i].id;
  }

  lemma KeepsAnOwner(owners: seq<nat>, id: nat)
    requires owners != [] && owners != [id]
    ensures WithoutLast(owners, id) != []
  {
  }

  lemma {:induction false} FirstListed(shards: seq<Shard>, i: nat)
    requires i < |shards| && shards[i].owners == [] && forall k :: 0 <= k < i ==> shards[k].owners != []
    ensures OrphanIds(shards) != [] && OrphanIds(shards)[0] == shards[i].id
  {
    var n := |shards| - 1;
    if i < n {
      FirstListed(shards[..n], i);
    } else {
      NoneListed(shards[..n]);
    }
  }

  lemma {:induction false} NoneListed(shards: seq<Shard>)
    requires forall k :: 0 <= k < |shards| ==> shards[k].owners != []
    ensures OrphanIds(shards) == []
  {
    if shards != [] {
      NoneListed(shards[..|shards| - 1]);
    }
  }

  lemma NotAgain(shards: seq<Shard>, orphans: seq<nat>, nodes: set<nat>, r: seq<Shard>, i: nat)
    requires orphans != [] && Distinct(orphans) && i < |shards| && shards[i].id == orphans[0]
    requires Adopted(shards, orphans[1..], nodes, r)
    ensures |r| == |shards| && r[i] == shards[i]
  {
  }

  lemma CleanIds(shards: seq<Shard>)
    requires Clean(shards)
    ensures Distinct(Ids(shards))
  {
  }

  lemma AdoptedFacts(shards: seq<Shard>, orphans: seq<nat>, nodes: set<nat>, id: nat, r: seq<Shard>)
    requires Adopted(shards, orphans, nodes, r) && id !in nodes
    requires forall i :: 0 <= i < |shards| ==> id !in shards[i].owners
    requires forall i :: 0 <= i < |shards| ==> (shards[i].id in orphans <==> shards[i].owners == [])
    ensures |r| == |shards|
    ensures forall i :: 0 <= i < |r| ==> id !in r[i].owners && r[i].owners != []
    ensures forall i :: 0 <= i < |r| && shards[i].owners != [] ==> r[i] == shards[i]
  {
  }

  lemma BalancedOwners(after: map<nat, nat>, r: seq<Shard>, orphans: seq<nat>)
    requires IsFreqMap(after, r) && Balanced(after, {} + Receivers(orphans, r))
    ensures forall x, y :: x in Receivers(orphans, r) && y in OwnersOf(r) ==> Freq(r, x) <= Freq(r, y) + 1
  {
    hide Freq;
    forall x: nat ensures Freq(r, x) > 0 <==> x in OwnersOf(r) {
      FreqPositive(r, x);
    }
    assert Receivers(orphans, r) <= OwnersOf(r);
  }
}
