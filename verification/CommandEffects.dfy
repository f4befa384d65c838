/**
 What each metadata command does, told without its own definition (services/meta/data.go):
 which outcome when, what changes, and that nothing else does.
 */
module CommandEffects {
  import opened AnyRuns
  import opened Bytes
  import opened Lists
  import opened MetaModel
  import opened MetaOps
  import opened MetaRuns
  import opened NodeRemoval
  import opened Placement

  /** The metadata after a command, apart from the index. */
  ghost function After(d: Meta, c: Cmd, now: int): (e: Meta) {
    Apply(d, c, now).meta.(index := d.index)
  }

  /** What a command other than creating a group or pruning comes to. */
  lemma AfterIs(d: Meta, c: Cmd, now: int)
    requires !c.CreateShardGroup? && !c.PruneShardGroups?
    ensures Apply(d, c, now).err == Change(d, c, now).err
    ensures After(d, c, now) == if Change(d, c, now).err == OK then Change(d, c, now).meta else d
  {
    hide Sort, RemoveFromPolicies, ReownPolicies, GroupIndex, Thaw, NodesWithout, PolicyIndex;
    IndexStays(d, c, now);
  }

  ghost predicate HasPolicy(d: Meta, db: string, name: string) {
    db in d.databases && exists i :: 0 <= i < |d.policies| && d.policies[i].db == db && d.policies[i].name == name
  }

  /** The policy a name stands for is the first of that name. */
  ghost predicate IsPolicy(d: Meta, db: string, name: string, i: int) {
    && 0 <= i < |d.policies| && d.policies[i].db == db && d.policies[i].name == name
    && forall k :: 0 <= k < i ==> d.policies[k].db != db || d.policies[k].name != name
  }

  lemma {:induction false} FirstPolicy(ps: seq<Policy>, db: string, name: string)
    ensures var i := PolicyIndex(ps, db, name);
            forall k :: 0 <= k < i ==> ps[k].db != db || ps[k].name != name
  {
    if ps != [] {
      FirstPolicy(ps[1..], db, name);
      var i := PolicyIndex(ps, db, name);
      forall k | 0 <= k < i ensures ps[k].db != db || ps[k].name != name {
        assert k > 0 ==> ps[1..][k - 1] == ps[k];
      }
    }
  }

  lemma PolicyFound(d: Meta, db: string, name: string)
    ensures PolicyErr(d, db, name) == OK <==> HasPolicy(d, db, name)
    ensures PolicyErr(d, db, name) == DatabaseNotFound <==> db !in d.databases
    ensures PolicyErr(d, db, name) == PolicyNotFound <==> db in d.databases && !HasPolicy(d, db, name)
    ensures HasPolicy(d, db, name) ==> IsPolicy(d, db, name, PolicyIndex(d.policies, db, name))
  {
    hide PolicyIndex;
    FirstPolicy(d.policies, db, name);
  }

  lemma {:induction false} FirstGroup(gs: seq<Group>, id: nat)
    ensures var j := GroupIndex(gs, id);
            && (forall k :: 0 <= k < j ==> gs[k].id != id)
            && (j < |gs| <==> exists g :: g in gs && g.id == id)
  {
    if gs != [] {
      FirstGroup(gs[1..], id);
      var j := GroupIndex(gs, id);
      forall k | 0 <= k < j ensures gs[k].id != id {
        assert k > 0 ==> gs[1..][k - 1] == gs[k];
      }
      assert gs == [gs[0]] + gs[1..];
      if j < |gs| {
        assert gs[j] in gs;
      }
    }
  }

  // ---------- deleting a group ----------

  /** Group `j` of policy `i` has the stamp, and all else is as it was. */
  ghost predicate Stamped(d: Meta, e: Meta, i: nat, j: nat, now: int) {
    && e == d.(policies := e.policies) && |e.policies| == |d.policies| && i < |d.policies|
    && (forall k :: 0 <= k < |d.policies| && k != i ==> e.policies[k] == d.policies[k])
    && var gs, hs := d.policies[i].groups, e.policies[i].groups;
       && e.policies[i] == d.policies[i].(groups := hs) && |hs| == |gs| && j < |gs|
       && (forall k :: 0 <= k < |gs| && k != j ==> hs[k] == gs[k])
       && hs[j] == gs[j].(deletedAt := now)
  }

  /** It succeeds exactly if the policy has a group with that id, and then stamps the first such group and nothing else. */
  lemma DeleteGroupExact(d: Meta, db: string, name: string, id: nat, now: int)
    ensures var c := DeleteShardGroup(db, name, id);
            var err, e := Apply(d, c, now).err, After(d, c, now);
            && (err == OK <==> HasPolicy(d, db, name)
                               && exists i, g :: IsPolicy(d, db, name, i) && g in d.policies[i].groups && g.id == id)
            && (err == DatabaseNotFound <==> db !in d.databases)
            && (err == PolicyNotFound <==> db in d.databases && !HasPolicy(d, db, name))
            && (err != OK ==> e == d)
            && (err == OK ==>
                  exists i: nat, j: nat :: IsPolicy(d, db, name, i) && IsGroup(d, i, j, id) && Stamped(d, e, i, j, now))
  {
    hide PolicyIndex, GroupIndex, Apply;
    AfterIs(d, DeleteShardGroup(db, name, id), now);
    PolicyFound(d, db, name);
    if HasPolicy(d, db, name) {
      var i := PolicyIndex(d.policies, db, name);
      FirstGroup(d.policies[i].groups, id);
      forall x | IsPolicy(d, db, name, x) ensures x == i {
      }
      var r := DeleteGroup(d, db, name, id, now);
      if r.err == OK {
        assert Stamped(d, r.meta, i, GroupIndex(d.policies[i].groups, id), now);
      }
    }
  }

  /** Group `j` of policy `i` is the first with that id. */
  ghost predicate IsGroup(d: Meta, i: nat, j: nat, id: nat) {
    && i < |d.policies| && j < |d.policies[i].groups| && d.policies[i].groups[j].id == id
    && forall k :: 0 <= k < j ==> d.policies[i].groups[k].id != id
  }

  lemma StampedPolicy(d: Meta, e: Meta, db: string, name: string, i: nat, j: nat, now: int)
    requires IsPolicy(d, db, name, i) && Stamped(d, e, i, j, now) && HasPolicy(d, db, name)
    ensures IsPolicy(e, db, name, i) && HasPolicy(e, db, name)
    ensures PolicyErr(e, db, name) == OK && PolicyIndex(e.policies, db, name) == i == PolicyIndex(d.policies, db, name)
  {
    hide PolicyIndex;
    PolicyFound(d, db, name);
    PolicyFound(e, db, name);
  }

  /** Under the invariant the group answers no time any more, and no live group has its times. */
  lemma DeletedIsGone(d: Meta, db: string, name: string, id: nat, now: int, i: nat, g: Group)
    requires Inv(d) && now != 0 && IsPolicy(d, db, name, i) && HasPolicy(d, db, name) && g in d.policies[i].groups && g.id == id
    requires d.policies[i].groupDuration > 0
    ensures var e := Apply(d, DeleteShardGroup(db, name, id), now).meta;
            && (forall t :: AnswerIn(e, db, name, t).Some? ==> AnswerIn(e, db, name, t).value.id != id)
            && (forall t :: g.Covers(t) ==> AnswerIn(e, db, name, t) == None)
  {
    hide Inv, PolicyIndex, Answer, Apply;
    DeleteGroupExact(d, db, name, id, now);
    var e := Apply(d, DeleteShardGroup(db, name, id), now).meta;
    var f := After(d, DeleteShardGroup(db, name, id), now);
    var x: nat, j: nat :| IsPolicy(d, db, name, x) && IsGroup(d, x, j, id) && Stamped(d, f, x, j, now);
    assert x == i;
    StampedPolicy(d, f, db, name, i, j, now);
    assert e.policies == f.policies && e.databases == f.databases;
    var gs, hs := d.policies[i].groups, e.policies[i].groups;
    OnlyGroup(d, i, j, g);
    forall t | AnswerIn(e, db, name, t).Some? ensures AnswerIn(e, db, name, t).value.id != id && !g.Covers(t) {
      var k :| 0 <= k < |hs| && hs[k] == Answer(hs, t).value;
      assert k != j && hs[k] == gs[k];
      OtherId(d, i, j, k);
      if g.Covers(t) {
        NotBoth(d, i, j, k, t);
      }
    }
  }

  lemma OnlyGroup(d: Meta, i: nat, j: nat, g: Group)
    requires Inv(d) && i < |d.policies| && j < |d.policies[i].groups| && g in d.policies[i].groups
    requires d.policies[i].groups[j].id == g.id
    ensures d.policies[i].groups[j] == g
  {
    hide PolicyOk;
    PolicyOkAt(d.policies, i, d.maxGroupID, d.maxShardID);
    var k :| 0 <= k < |d.policies[i].groups| && d.policies[i].groups[k] == g;
    if j < k {
      GroupIdsDistinct(d.policies[i], d.maxGroupID, d.maxShardID, j, k);
    } else if k < j {
      GroupIdsDistinct(d.policies[i], d.maxGroupID, d.maxShardID, k, j);
    }
  }

  lemma OtherId(d: Meta, i: nat, j: nat, k: nat)
    requires Inv(d) && i < |d.policies| && j < |d.policies[i].groups| && k < |d.policies[i].groups| && j != k
    ensures d.policies[i].groups[j].id != d.policies[i].groups[k].id
  {
    hide PolicyOk;
    PolicyOkAt(d.policies, i, d.maxGroupID, d.maxShardID);
    if j < k {
      GroupIdsDistinct(d.policies[i], d.maxGroupID, d.maxShardID, j, k);
    } else {
      GroupIdsDistinct(d.policies[i], d.maxGroupID, d.maxShardID, k, j);
    }
  }

  lemma NotBoth(d: Meta, i: nat, j: nat, k: nat, t: int)
    requires Inv(d) && i < |d.policies| && d.policies[i].groupDuration > 0
    requires j < |d.policies[i].groups| && k < |d.policies[i].groups| && j != k
    ensures !(d.policies[i].groups[j].Covers(t) && d.policies[i].groups[k].Covers(t))
  {
    hide Inv;
    if d.policies[i].groups[j].Covers(t) && d.policies[i].groups[k].Covers(t) {
      if j < k {
        LiveGroupsDisjoint(d, i, j, k, t);
      } else {
        LiveGroupsDisjoint(d, i, k, j, t);
      }
    }
  }

  /** A creation for a time that the deleted group had makes a new group. */
  lemma CreateAfterDelete(d: Meta, db: string, name: string, id: nat, now: int, i: nat, g: Group, t: int)
    requires Inv(d) && now != 0 && IsPolicy(d, db, name, i) && HasPolicy(d, db, name) && g in d.policies[i].groups && g.id == id
    requires d.policies[i].groupDuration > 0 && g.Covers(t) && t <= MAX_TIME
    ensures var e := Apply(d, DeleteShardGroup(db, name, id), now).meta;
            var r := Apply(e, CreateShardGroup(db, name, t), now);
            r.err == OK ==> exists h :: AnswerIn(r.meta, db, name, t) == Some(h) && h.id == d.maxGroupID + 1
  {
    hide Inv, PolicyIndex, Answer, Apply;
    DeletedIsGone(d, db, name, id, now, i, g);
    ApplyKeepsInv(d, DeleteShardGroup(db, name, id), now);
    DeleteGroupExact(d, db, name, id, now);
    var e := Apply(d, DeleteShardGroup(db, name, id), now).meta;
    var f := After(d, DeleteShardGroup(db, name, id), now);
    var x: nat, j: nat :| IsPolicy(d, db, name, x) && IsGroup(d, x, j, id) && Stamped(d, f, x, j, now);
    StampedPolicy(d, f, db, name, i, j, now);
    CreateWhereNone(e, db, name, t, now);
  }

  /** Where no group answers a time, one that is created is the next and answers it. */
  lemma CreateWhereNone(d: Meta, db: string, name: string, t: int, now: int)
    requires Inv(d) && PolicyErr(d, db, name) == OK && AnswerIn(d, db, name, t) == None && t <= MAX_TIME
    requires d.policies[PolicyIndex(d.policies, db, name)].groupDuration > 0
    ensures var r := Apply(d, CreateShardGroup(db, name, t), now);
            r.err == OK ==> exists h :: AnswerIn(r.meta, db, name, t) == Some(h) && h.id == d.maxGroupID + 1
  {
    hide Inv, PolicyIndex, Answer, Covered, CreateGroup;
    var i := PolicyIndex(d.policies, db, name);
    AnswerExact(d.policies[i].groups, t);
    var r := CreateGroup(d, db, name, t);
    if r.err == OK {
      CoveredAfterCreate(d, db, name, t);
      CreateAddsGroup(d, db, name, t);
      CreatedId(d, db, name, t);
      AnswerExact(r.meta.policies[i].groups, t);
      var h := Answer(r.meta.policies[i].groups, t).value;
      AnswerIsNew(d.policies[i].groups, r.meta.policies[i].groups, t, h);
    }
  }

  lemma AnswerIsNew(gs: seq<Group>, hs: seq<Group>, t: int, h: Group)
    requires Answer(gs, t) == None && Answer(hs, t) == Some(h)
    ensures h !in gs
  {
    hide Answer;
  }

  lemma CreatedId(d: Meta, db: string, name: string, t: int)
    requires CreateGroup(d, db, name, t).err == OK && !Covered(d.policies[PolicyIndex(d.policies, db, name)].groups, t)
    ensures Created(d, db, name, t).id == d.maxGroupID + 1
  {
    hide PolicyIndex, Covered, Available, ShardsDealt, Sort;
  }

  /** The group that answers a time is the first of the policy that is live and has it. */
  lemma {:induction false} AnswerIsFirst(gs: seq<Group>, t: int)
    ensures Answer(gs, t).Some? ==>
              exists j :: 0 <= j < |gs| && gs[j] == Answer(gs, t).value && forall k :: 0 <= k < j ==> !gs[k].Covers(t)
    ensures Answer(gs, t).Some? <==> exists j :: 0 <= j < |gs| && gs[j].Covers(t)
  {
    if gs != [] {
      AnswerIsFirst(gs[1..], t);
      assert forall k :: 0 < k < |gs| ==> gs[k] == gs[1..][k - 1];
      if gs[0].Covers(t) {
        assert Answer(gs, t) == Some(gs[0]);
      } else if Answer(gs, t).Some? {
        var j :| 0 <= j < |gs[1..]| && gs[1..][j] == Answer(gs[1..], t).value && forall k :: 0 <= k < j ==> !gs[1..][k].Covers(t);
        assert gs[j + 1] == Answer(gs, t).value;
        forall k | 0 <= k < j + 1 ensures !gs[k].Covers(t) {
          assert k > 0 ==> gs[k] == gs[1..][k - 1];
        }
      }
    }
  }

  // ---------- freezing ----------

  /** Exactly the one node joins the frozen ones, and no longer takes part in placement. */
  lemma FreezeExact(d: Meta, id: nat, now: int)
    ensures var c := FreezeDataNode(id);
            var err, e := Apply(d, c, now).err, After(d, c, now);
            && (err == OK <==> id != 0 && id in NodeIds(d.dataNodes) && id !in d.frozen)
            && (err == NodeIDRequired <==> id == 0)
            && (err == NodeNotFound <==> id != 0 && id !in NodeIds(d.dataNodes))
            && e == d.(frozen := e.frozen) && (err != OK ==> e == d)
            && (err == OK ==>
                  && (forall x :: x in e.frozen <==> x in d.frozen || x == id)
                  && (forall x :: x in Available(e.dataNodes, e.frozen) <==> x in Available(d.dataNodes, d.frozen) && x != id))
  {
    hide Available, Apply;
    AfterIs(d, FreezeDataNode(id), now);
    AvailableAre(d.dataNodes, d.frozen);
    AvailableAre(d.dataNodes, Freeze(d, id).meta.frozen);
  }

  /** Exactly the one node leaves them, and takes part again. */
  lemma UnfreezeExact(d: Meta, id: nat, now: int)
    requires Distinct(d.frozen)
    ensures var c := UnfreezeDataNode(id);
            var err, e := Apply(d, c, now).err, After(d, c, now);
            && (err == OK <==> id != 0 && id in NodeIds(d.dataNodes) && id in d.frozen)
            && (err == NodeIDRequired <==> id == 0)
            && (err == NodeNotFound <==> id != 0 && id !in NodeIds(d.dataNodes))
            && e == d.(frozen := e.frozen) && (err != OK ==> e == d)
            && (err == OK ==>
                  && (forall x :: x in e.frozen <==> x in d.frozen && x != id)
                  && (forall x :: x in Available(e.dataNodes, e.frozen) <==> x in Available(d.dataNodes, d.frozen) || x == id))
  {
    hide Available, Thaw, Apply;
    AfterIs(d, UnfreezeDataNode(id), now);
    ThawAre(d.frozen, id);
    AvailableAre(d.dataNodes, d.frozen);
    AvailableAre(d.dataNodes, Unfreeze(d, id).meta.frozen);
  }

  lemma {:induction false} RemainingFreeze(d: Meta, c: Cmd, now: int)
    requires NodesOk(d) && !c.FreezeDataNode? && !c.UnfreezeDataNode?
    ensures forall x :: x in Apply(d, c, now).meta.frozen <==>
              x in d.frozen && !(c == DeleteDataNode(x) && Apply(d, c, now).err == OK)
  {
    hide RemoveFromPolicies, ReownPolicies, PrunePolicies, Sort, NewGroup, Covered, Available, PolicyIndex, GroupIndex,
      Thaw, NodesWithout;
    if c.DeleteDataNode? {
      ThawAre(d.frozen, c.id);
    }
  }

  /** The command freezes the node, or ends that. */
  ghost predicate Freezes(d: Meta, c: Cmd, now: int, x: nat) {
    c == FreezeDataNode(x) && Apply(d, c, now).err == OK
  }

  ghost predicate Thaws(d: Meta, c: Cmd, now: int, x: nat) {
    (c == UnfreezeDataNode(x) || c == DeleteDataNode(x)) && Apply(d, c, now).err == OK
  }

  lemma FrozenStep(d: Meta, c: Cmd, now: int, x: nat)
    requires NodesOk(d)
    ensures x in Apply(d, c, now).meta.frozen <==> Freezes(d, c, now, x) || (x in d.frozen && !Thaws(d, c, now, x))
  {
    hide Apply, NodeIds, Available;
    if c.FreezeDataNode? {
      FreezeExact(d, c.id, now);
    } else if c.UnfreezeDataNode? {
      UnfreezeExact(d, c.id, now);
    } else {
      RemainingFreeze(d, c, now);
    }
  }

  /** Command `j` froze the node and none before state `i` ended that. */
  ghost predicate FrozenSince(ds: seq<Meta>, cs: seq<Cmd>, clocks: seq<int>, x: nat, j: nat, i: nat)
    requires i <= |cs| == |clocks| < |ds|
  {
    j < i && Freezes(ds[j], cs[j], clocks[j], x) && forall k :: j < k < i ==> !Thaws(ds[k], cs[k], clocks[k], x)
  }

  ghost predicate IsFrozen(ds: seq<Meta>, cs: seq<Cmd>, clocks: seq<int>, x: nat, i: nat)
    requires i <= |cs| == |clocks| < |ds|
  {
    exists j: nat :: FrozenSince(ds, cs, clocks, x, j, i)
  }

  lemma IsFrozenStep(ds: seq<Meta>, cs: seq<Cmd>, clocks: seq<int>, x: nat, i: nat)
    requires i < |cs| == |clocks| < |ds|
    ensures IsFrozen(ds, cs, clocks, x, i + 1) <==>
              Freezes(ds[i], cs[i], clocks[i], x) || (IsFrozen(ds, cs, clocks, x, i) && !Thaws(ds[i], cs[i], clocks[i], x))
  {
    hide Freezes, Thaws;
    if Freezes(ds[i], cs[i], clocks[i], x) {
      assert FrozenSince(ds, cs, clocks, x, i, i + 1);
    } else if IsFrozen(ds, cs, clocks, x, i) && !Thaws(ds[i], cs[i], clocks[i], x) {
      var j: nat :| FrozenSince(ds, cs, clocks, x, j, i);
      assert FrozenSince(ds, cs, clocks, x, j, i + 1);
    }
    if IsFrozen(ds, cs, clocks, x, i + 1) {
      var j: nat :| FrozenSince(ds, cs, clocks, x, j, i + 1);
      if j < i {
        assert FrozenSince(ds, cs, clocks, x, j, i);
      }
    }
  }

  /** In every run of any commands a node is frozen exactly if it was frozen and neither unfrozen nor deleted since. */
  lemma {:induction false} FrozenExact(ds: seq<Meta>, cs: seq<Cmd>, clocks: seq<int>, x: nat, i: nat)
    requires AnyRun(ds, cs, clocks) && i < |ds|
    ensures x in ds[i].frozen <==> IsFrozen(ds, cs, clocks, x, i)
  {
    hide Apply, IsFrozen, Freezes, Thaws, GroupsNumbered, NodesOk;
    if i == 0 {
      NeverFrozen(ds, cs, clocks, x);
    } else {
      FrozenExact(ds, cs, clocks, x, i - 1);
      RunKeepsNumbers(ds, cs, clocks, i - 1);
      FrozenStep(ds[i - 1], cs[i - 1], clocks[i - 1], x);
      IsFrozenStep(ds, cs, clocks, x, i - 1);
      assert ds[(i - 1) + 1] == ds[i];
    }
  }

  lemma NeverFrozen(ds: seq<Meta>, cs: seq<Cmd>, clocks: seq<int>, x: nat)
    requires |cs| == |clocks| < |ds|
    ensures !IsFrozen(ds, cs, clocks, x, 0)
  {
  }

  // ---------- shard owners ----------

  /** Place (i, j, k) comes before place (x, y, z). */
  predicate Earlier(i: nat, j: nat, k: nat, x: nat, y: nat, z: nat) {
    i < x || (i == x && (j < y || (j == y && k < z)))
  }

  predicate At(ps: seq<Policy>, i: nat, j: nat, k: nat) {
    i < |ps| && j < |ps[i].groups| && k < |ps[i].groups[j].shards|
  }

  /** Everything is as it was but the owners of one shard. */
  ghost predicate OwnersChanged(ps: seq<Policy>, qs: seq<Policy>, i: nat, j: nat, k: nat, owners: seq<nat>)
    requires At(ps, i, j, k)
  {
    var g := ps[i].groups[j];
    var h := g.(shards := g.shards[k := Shard(g.shards[k].id, owners)]);
    qs == ps[i := ps[i].(groups := ps[i].groups[j := h])]
  }

  /** An owner is added behind the others unless it is one already; removed, the others stay in order. */
  ghost predicate OwnersAfter(before: seq<nat>, node: nat, add: bool, after: seq<nat>) {
    if add then after == if node in before then before else before + [node]
    else
      && (forall x :: multiset(after)[x] == if x == node then 0 else multiset(before)[x])
      && exists places :: Picks(places, before, after)
  }

  /** `after` is what `before` has at these places, in order. */
  ghost predicate Picks(places: seq<nat>, before: seq<nat>, after: seq<nat>) {
    && |places| == |after|
    && (forall a :: 0 <= a < |places| ==> places[a] < |before| && before[places[a]] == after[a])
    && forall a, b :: 0 <= a < b < |places| ==> places[a] < places[b]
  }

  lemma PicksMore(places: seq<nat>, before: seq<nat>, after: seq<nat>, n: nat)
    requires n < |before| && Picks(places, before[..n], after)
    ensures Picks(places, before, after) && Picks(places + [n], before, after + [before[n]])
  {
    assert forall a :: 0 <= a < |places| ==> before[..n][places[a]] == before[places[a]];
  }

  lemma WithoutStep(owners: seq<nat>, node: nat)
    requires owners != []
    ensures var n := |owners| - 1;
            Without(owners, node) == Without(owners[..n], node) + if owners[n] != node then [owners[n]] else []
  {
  }

  lemma {:induction false} WithoutCount(owners: seq<nat>, node: nat, x: nat)
    ensures multiset(Without(owners, node))[x] == if x == node then 0 else multiset(owners)[x]
  {
    if owners != [] {
      var n := |owners| - 1;
      WithoutCount(owners[..n], node, x);
      assert owners == owners[..n] + [owners[n]];
    }
  }

  lemma {:induction false} WithoutOrder(owners: seq<nat>, node: nat) returns (places: seq<nat>)
    ensures Picks(places, owners, Without(owners, node))
  {
    if owners == [] {
      places := [];
    } else {
      hide Without, Picks;
      var n := |owners| - 1;
      var front := WithoutOrder(owners[..n], node);
      WithoutStep(owners, node);
      PicksMore(front, owners, Without(owners[..n], node), n);
      places := if owners[n] != node then front + [n] else front;
      assert owners[n] == node ==> Without(owners[..n], node) + [] == Without(owners[..n], node);
    }
  }

  lemma ReownedOwners(s: Shard, node: nat, add: bool)
    ensures Reowned(s, node, add).id == s.id && OwnersAfter(s.owners, node, add, Reowned(s, node, add).owners)
  {
    hide Without;
    if !add {
      forall x ensures multiset(Without(s.owners, node))[x] == if x == node then 0 else multiset(s.owners)[x] {
        WithoutCount(s.owners, node, x);
      }
      var places := WithoutOrder(s.owners, node);
    }
  }

  lemma FirstShard(ss: seq<Shard>, id: nat)
    ensures var k := IndexOf(Ids(ss), id);
            && (forall z :: 0 <= z < k ==> ss[z].id != id)
            && (k < |ss| ==> ss[k].id == id)
            && (k == |ss| ==> forall z :: 0 <= z < |ss| ==> ss[z].id != id)
  {
    hide IndexOf;
    var k := IndexOf(Ids(ss), id);
    forall z | 0 <= z < k ensures ss[z].id != id {
      assert Ids(ss)[..k][z] == ss[z].id;
    }
    if k < |ss| {
      assert Ids(ss)[k] == ss[k].id;
    }
  }

  ghost predicate NoShard(gs: seq<Group>, id: nat) {
    forall j, k :: 0 <= j < |gs| && 0 <= k < |gs[j].shards| ==> gs[j].shards[k].id != id
  }

  lemma {:induction false} ReownGroupsAt(gs: seq<Group>, id: nat, node: nat, add: bool) returns (j: nat, k: nat)
    ensures ReownGroups(gs, id, node, add).None? ==> NoShard(gs, id)
    ensures ReownGroups(gs, id, node, add).Some? ==>
              && j < |gs| && k < |gs[j].shards| && gs[j].shards[k].id == id
              && ReownGroups(gs, id, node, add).value
                 == gs[j := gs[j].(shards := gs[j].shards[k := Reowned(gs[j].shards[k], node, add)])]
              && (forall y, z :: 0 <= y < j && 0 <= z < |gs[y].shards| ==> gs[y].shards[z].id != id)
              && forall z :: 0 <= z < k ==> gs[j].shards[z].id != id
  {
    hide IndexOf, Ids, Reowned;
    j, k := 0, 0;
    if gs != [] {
      FirstShard(gs[0].shards, id);
      if ReownShards(gs[0].shards, id, node, add).Some? {
        k := IndexOf(Ids(gs[0].shards), id);
      } else {
        j, k := ReownGroupsAt(gs[1..], id, node, add);
        if ReownGroups(gs[1..], id, node, add).Some? {
          assert forall y :: 0 < y < |gs| ==> gs[y] == gs[1..][y - 1];
          j := j + 1;
        } else {
          forall y, z | 0 <= y < |gs| && 0 <= z < |gs[y].shards| ensures gs[y].shards[z].id != id {
            assert y > 0 ==> gs[y] == gs[1..][y - 1];
          }
        }
      }
    }
  }

  lemma {:induction false} ReownPoliciesAt(ps: seq<Policy>, id: nat, node: nat, add: bool) returns (i: nat, j: nat, k: nat)
    ensures ReownPolicies(ps, id, node, add).None? ==> forall x :: 0 <= x < |ps| ==> NoShard(ps[x].groups, id)
    ensures ReownPolicies(ps, id, node, add).Some? ==>
              && At(ps, i, j, k) && ps[i].groups[j].shards[k].id == id
              && OwnersChanged(ps, ReownPolicies(ps, id, node, add).value, i, j, k,
                               Reowned(ps[i].groups[j].shards[k], node, add).owners)
              && (forall x :: 0 <= x < i ==> NoShard(ps[x].groups, id))
              && (forall y, z :: 0 <= y < j && 0 <= z < |ps[i].groups[y].shards| ==> ps[i].groups[y].shards[z].id != id)
              && forall z :: 0 <= z < k ==> ps[i].groups[j].shards[z].id != id
  {
    hide ReownGroups, NoShard, Reowned;
    i, j, k := 0, 0, 0;
    if ps != [] {
      j, k := ReownGroupsAt(ps[0].groups, id, node, add);
      if ReownGroups(ps[0].groups, id, node, add).Some? {
        SameShardId(ps[0].groups[j].shards[k], node, add);
      } else {
        i, j, k := ReownPoliciesAt(ps[1..], id, node, add);
        assert forall x :: 0 < x < |ps| ==> ps[x] == ps[1..][x - 1];
        if ReownPolicies(ps[1..], id, node, add).Some? {
          i := i + 1;
        }
      }
    }
  }

  lemma SameShardId(s: Shard, node: nat, add: bool)
    ensures Reowned(s, node, add) == Shard(s.id, Reowned(s, node, add).owners)
  {
  }

  ghost predicate IsFirstShard(ps: seq<Policy>, id: nat, i: nat, j: nat, k: nat) {
    && At(ps, i, j, k) && ps[i].groups[j].shards[k].id == id
    && forall x: nat, y: nat, z: nat :: At(ps, x, y, z) && Earlier(x, y, z, i, j, k) ==> ps[x].groups[y].shards[z].id != id
  }

  function OwnerCommand(shard: nat, node: nat, add: bool): (c: Cmd) {
    if add then AddShardOwner(shard, node) else RemoveShardOwner(shard, node)
  }

  /** Of all shards exactly the first with that id gets or loses the owner; without one nothing changes. */
  lemma ReownExactly(d: Meta, shard: nat, node: nat, add: bool, now: int)
    ensures var c := OwnerCommand(shard, node, add);
            var err, e := Apply(d, c, now).err, After(d, c, now);
            && e == d.(policies := e.policies) && err == OK
            && ((forall x :: 0 <= x < |d.policies| ==> NoShard(d.policies[x].groups, shard)) ==> e == d)
            && (forall i: nat, j: nat, k: nat :: IsFirstShard(d.policies, shard, i, j, k) ==>
                  exists owners :: OwnersAfter(d.policies[i].groups[j].shards[k].owners, node, add, owners)
                                   && OwnersChanged(d.policies, e.policies, i, j, k, owners))
  {
    hide ReownPolicies, Reowned, OwnersChanged, OwnersAfter, Apply;
    AfterIs(d, OwnerCommand(shard, node, add), now);
    var x, y, z := ReownPoliciesAt(d.policies, shard, node, add);
    if ReownPolicies(d.policies, shard, node, add).Some? {
      var s := d.policies[x].groups[y].shards[z];
      ReownedOwners(s, node, add);
      forall i: nat, j: nat, k: nat | IsFirstShard(d.policies, shard, i, j, k) ensures i == x && j == y && k == z {
        assert !Earlier(x, y, z, i, j, k);
        assert At(d.policies, i, j, k) && !Earlier(i, j, k, x, y, z);
      }
    }
  }

  // ---------- placement ----------

  lemma ModAgain(a: nat, b: nat, n: nat)
    requires n > 0
    ensures (a % n + b) % n == (a + b) % n
  {
    var q, r := a / n, (a % n + b) / n;
    assert a == q * n + a % n;
    assert a % n + b == r * n + (a % n + b) % n;
    assert a + b == (q + r) * n + (a % n + b) % n;
    Remainder(q + r, n, (a % n + b) % n);
  }

  /** Replica `j` of shard `i` is on the node that many places after the one the metadata index points at. */
  lemma DealExact(d: Meta, p: Policy, t: int, avail: seq<nat>, replicaN: nat, i: nat, j: nat)
    requires avail != [] && replicaN > 0 && i < |avail| / replicaN && j < replicaN
    ensures var g := NewGroup(d, p, t, avail, replicaN);
            && |g.shards| == |avail| / replicaN && |g.shards[i].owners| == replicaN
            && g.shards[i].owners[j] == avail[(d.index + i * replicaN + j) % |avail|]
  {
    hide ShardsDealt;
    ShardDealtAt(avail, d.index % |avail|, replicaN, d.maxShardID + 1, |avail| / replicaN, i);
    ModAgain(d.index, i * replicaN + j, |avail|);
    assert d.index % |avail| + i * replicaN + j == d.index % |avail| + (i * replicaN + j);
  }

  // ---------- nodes ----------

  /** The first meta node with the host or the TCP host. */
  ghost predicate IsMetaNode(d: Meta, host: string, tcpHost: string, i: nat) {
    && i < |d.metaNodes| && (d.metaNodes[i].host == host || d.metaNodes[i].tcpHost == tcpHost)
    && forall k :: 0 <= k < i ==> d.metaNodes[k].host != host && d.metaNodes[k].tcpHost != tcpHost
  }

  /**
   A node is added exactly if no data node has the host or the TCP host, and it is the only one
   added. It gets the id of a meta node with that host if there is one, else the next id.
   */
  lemma CreateNodeExact(d: Meta, host: string, tcpHost: string, now: int)
    ensures var c := CreateDataNode(host, tcpHost);
            var err, e := Apply(d, c, now).err, After(d, c, now);
            && (err == OK <==> forall n :: n in d.dataNodes ==> n.host != host && n.tcpHost != tcpHost)
            && (err != OK ==> e == d && err == NodeExists)
            && (err == OK ==>
                  && e == d.(dataNodes := e.dataNodes, maxNodeID := e.maxNodeID)
                  && exists id ::
                       && (forall x :: x in e.dataNodes <==> x in d.dataNodes || x == NodeInfo(id, host, tcpHost))
                       && (id == d.maxNodeID + 1 == e.maxNodeID
                           || (e.maxNodeID == d.maxNodeID
                               && exists i: nat :: IsMetaNode(d, host, tcpHost, i) && d.metaNodes[i].id == id))
                       && forall i: nat :: IsMetaNode(d, host, tcpHost, i) && d.metaNodes[i].id != 0 ==> id == d.metaNodes[i].id)
  {
    hide Sort, Apply;
    AfterIs(d, CreateDataNode(host, tcpHost), now);
    if CreateNode(d, host, tcpHost).err == OK {
      var existing := MatchingId(d.metaNodes, host, tcpHost);
      var id := if existing == 0 then d.maxNodeID + 1 else existing;
      forall x ensures x in Sort(d.dataNodes + [NodeInfo(id, host, tcpHost)], NodeLess) <==>
                       x in d.dataNodes || x == NodeInfo(id, host, tcpHost)
      {
        SortMember(d.dataNodes + [NodeInfo(id, host, tcpHost)], NodeLess, x);
      }
      MatchIs(d.metaNodes, host, tcpHost);
      forall n | n in d.dataNodes ensures n.host != host && n.tcpHost != tcpHost {
        var i :| 0 <= i < |d.dataNodes| && d.dataNodes[i] == n;
        assert !NodeMatches(d.dataNodes[i], host, tcpHost);
      }
      forall i: nat ensures IsMetaNode(d, host, tcpHost, i) <==> FirstMatch(d.metaNodes, host, tcpHost, i) {
      }
    }
  }

  /** Node `i` is the first that matches. */
  ghost predicate FirstMatch(nodes: seq<NodeInfo>, host: string, tcpHost: string, i: nat) {
    && i < |nodes| && NodeMatches(nodes[i], host, tcpHost)
    && forall k :: 0 <= k < i ==> !NodeMatches(nodes[k], host, tcpHost)
  }

  lemma FirstMatchCons(nodes: seq<NodeInfo>, host: string, tcpHost: string, i: nat)
    requires nodes != [] && !NodeMatches(nodes[0], host, tcpHost)
    ensures FirstMatch(nodes[1..], host, tcpHost, i) <==> FirstMatch(nodes, host, tcpHost, i + 1)
    ensures !FirstMatch(nodes, host, tcpHost, 0)
  {
    hide NodeMatches;
    assert forall k :: 0 < k < |nodes| ==> nodes[k] == nodes[1..][k - 1];
    if FirstMatch(nodes, host, tcpHost, i + 1) {
      forall k | 0 <= k < i ensures !NodeMatches(nodes[1..][k], host, tcpHost) {
        assert nodes[k + 1] == nodes[1..][k];
      }
    }
  }

  lemma {:induction false} MatchIs(nodes: seq<NodeInfo>, host: string, tcpHost: string)
    ensures var id := MatchingId(nodes, host, tcpHost);
            && (forall i: nat :: FirstMatch(nodes, host, tcpHost, i) ==> id == nodes[i].id)
            && (id != 0 ==> exists i: nat :: FirstMatch(nodes, host, tcpHost, i))
  {
    hide NodeMatches;
    if nodes != [] {
      if NodeMatches(nodes[0], host, tcpHost) {
        assert FirstMatch(nodes, host, tcpHost, 0);
      } else {
        hide FirstMatch;
        MatchIs(nodes[1..], host, tcpHost);
        var id := MatchingId(nodes, host, tcpHost);
        FirstMatchCons(nodes, host, tcpHost, 0);
        forall i: nat | FirstMatch(nodes, host, tcpHost, i) ensures i < |nodes| && id == nodes[i].id {
          FirstMatchCons(nodes, host, tcpHost, i - 1);
          MatchInRange(nodes, host, tcpHost, i);
          assert nodes[1..][i - 1] == nodes[i];
        }
        if id != 0 {
          var i: nat :| FirstMatch(nodes[1..], host, tcpHost, i);
          FirstMatchCons(nodes, host, tcpHost, i);
        }
      }
    }
  }

  lemma MatchInRange(nodes: seq<NodeInfo>, host: string, tcpHost: string, i: nat)
    requires FirstMatch(nodes, host, tcpHost, i)
    ensures i < |nodes|
  {
  }

  /** Deleting a node takes exactly that node from the nodes and the frozen ones, if it is there. */
  lemma DeleteNodeExact(d: Meta, id: nat, now: int)
    requires NodesOk(d)
    ensures var c := DeleteDataNode(id);
            var err, e := Apply(d, c, now).err, After(d, c, now);
            && (err == NodeIDRequired <==> id == 0)
            && (err == NodeNotFound <==> id != 0 && id !in NodeIds(d.dataNodes))
            && (err != OK ==> e == d)
            && (err == OK ==>
                  && e == d.(dataNodes := e.dataNodes, frozen := e.frozen, policies := e.policies)
                  && (forall n :: n in e.dataNodes <==> n in d.dataNodes && n.id != id)
                  && forall x :: x in e.frozen <==> x in d.frozen && x != id)
  {
    hide RemoveFromPolicies, Thaw, NodesWithout, Apply;
    AfterIs(d, DeleteDataNode(id), now);
    NodesWithoutAre(d.dataNodes, id);
    ThawAre(d.frozen, id);
  }

  /** Creating a group changes the policies and the two counters only, and says why it cannot. */
  lemma CreateGroupFrame(d: Meta, db: string, name: string, t: int, now: int)
    ensures var c := CreateShardGroup(db, name, t);
            var err, e := Apply(d, c, now).err, After(d, c, now);
            && e == d.(policies := e.policies, maxGroupID := e.maxGroupID, maxShardID := e.maxShardID)
            && (AnswerIn(d, db, name, t).Some? ==> err == OK && e == d)
            && (AnswerIn(d, db, name, t) == None ==>
                  && (err == NodeNotFound <==> d.dataNodes == [])
                  && (err == DatabaseNotFound <==> d.dataNodes != [] && db !in d.databases)
                  && (err == PolicyNotFound <==> d.dataNodes != [] && db in d.databases && !HasPolicy(d, db, name)))
  {
    hide PolicyIndex, NewGroup, Available, Sort, Answer;
    PolicyFound(d, db, name);
    if PolicyErr(d, db, name) == OK {
      AnswerExact(d.policies[PolicyIndex(d.policies, db, name)].groups, t);
    }
  }

  /** No two data nodes share a host or a TCP host. */
  ghost predicate HostsApart(nodes: seq<NodeInfo>) {
    forall a, b :: a in nodes && b in nodes && a != b ==> a.host != b.host && a.tcpHost != b.tcpHost
  }

  lemma FewerNodes(d: Meta, c: Cmd, now: int)
    requires NodesOk(d) && !c.CreateDataNode?
    ensures forall n :: n in Change(d, c, now).meta.dataNodes ==> n in d.dataNodes
  {
    hide RemoveFromPolicies, ReownPolicies, PrunePolicies, Sort, NewGroup, Covered, Available, PolicyIndex, GroupIndex,
      Thaw, NodesWithout;
    if c.DeleteDataNode? {
      NodesWithoutAre(d.dataNodes, c.id);
    }
  }

  lemma ChangeKeepsHosts(d: Meta, c: Cmd, now: int)
    requires NodesOk(d) && HostsApart(d.dataNodes)
    ensures HostsApart(Change(d, c, now).meta.dataNodes)
  {
    if c.CreateDataNode? {
      hide CreateNode, NodesOk, Apply;
      CreateNodeExact(d, c.host, c.tcpHost, now);
      AfterIs(d, c, now);
      CreateNodeErr(d, c.host, c.tcpHost);
    } else {
      hide Change, NodesOk;
      FewerNodes(d, c, now);
    }
  }

  lemma CreateNodeErr(d: Meta, host: string, tcpHost: string)
    ensures CreateNode(d, host, tcpHost).err != OK ==> CreateNode(d, host, tcpHost).meta == d
  {
  }

  /** In every run of any commands no two data nodes share a host or a TCP host. */
  lemma {:induction false} RunKeepsHosts(ds: seq<Meta>, cs: seq<Cmd>, clocks: seq<int>, i: nat)
    requires AnyRun(ds, cs, clocks) && i < |ds|
    ensures forall a, b :: 0 <= a < b < |ds[i].dataNodes| ==>
              ds[i].dataNodes[a].host != ds[i].dataNodes[b].host && ds[i].dataNodes[a].tcpHost != ds[i].dataNodes[b].tcpHost
  {
    RunKeepsHostsApart(ds, cs, clocks, i);
    RunKeepsNumbers(ds, cs, clocks, i);
  }

  lemma {:induction false} RunKeepsHostsApart(ds: seq<Meta>, cs: seq<Cmd>, clocks: seq<int>, i: nat)
    requires AnyRun(ds, cs, clocks) && i < |ds|
    ensures HostsApart(ds[i].dataNodes)
  {
    hide Change, NothingToDo, GroupsNumbered;
    if i > 0 {
      RunKeepsHostsApart(ds, cs, clocks, i - 1);
      RunKeepsNumbers(ds, cs, clocks, i - 1);
      ChangeKeepsHosts(ds[i - 1], cs[i - 1], clocks[i - 1]);
      assert ds[(i - 1) + 1] == ds[i];
    }
  }

  // ---------- pruning and committing ----------

  /** A prune takes away exactly the groups deleted before the limit, and changes nothing else. */
  lemma PruneExact(d: Meta, expiration: int, now: int)
    ensures var e := Apply(d, PruneShardGroups(expiration), now).meta;
            && |e.policies| == |d.policies|
            && (forall i :: 0 <= i < |d.policies| ==>
                  && e.policies[i] == d.policies[i].(groups := e.policies[i].groups)
                  && forall g :: g in e.policies[i].groups <==>
                       g in d.policies[i].groups && (g.deletedAt == 0 || g.deletedAt >= expiration))
            && e == d.(policies := e.policies, index := e.index)
            && (e.index == d.index <==> e.policies == d.policies)
            && (e.index != d.index ==> e.index == d.index + 1)
  {
    hide Remaining;
    forall i | 0 <= i < |d.policies|
      ensures forall g :: g in Remaining(d.policies[i].groups, expiration) <==>
                g in d.policies[i].groups && (g.deletedAt == 0 || g.deletedAt >= expiration)
    {
      RemainingAre(d.policies[i].groups, expiration);
    }
  }

  /** A command that fails changes nothing; one that succeeds moves the index by one, or found nothing to do. */
  lemma CommitExact(d: Meta, c: Cmd, now: int)
    ensures var r := Apply(d, c, now);
            && (r.err != OK ==> r.meta == d)
            && (r.err == OK ==> r.meta.index == d.index + 1 || r.meta == d)
            && (r.err == OK && r.meta == d ==>
                  || (c.CreateShardGroup? && AnswerIn(d, c.db, c.policy, c.t).Some?)
                  || (c.PruneShardGroups? && forall i, g :: 0 <= i < |d.policies| && g in d.policies[i].groups ==>
                        g.deletedAt == 0 || g.deletedAt >= c.expiration))
  {
    hide Sort, NewGroup, Available, RemoveFromPolicies, ReownPolicies, PrunePolicies, GroupIndex, Thaw, NodesWithout, PolicyIndex,
      Covered, Answer;
    IndexStays(d, c, now);
    var r := Apply(d, c, now);
    if c.CreateShardGroup? && NothingToDo(d, c) {
      AnswerExact(d.policies[PolicyIndex(d.policies, c.db, c.policy)].groups, c.t);
    }
    if c.PruneShardGroups? {
      PruneExact(d, c.expiration, now);
    }
  }

  lemma IndexStays(d: Meta, c: Cmd, now: int)
    ensures Change(d, c, now).meta.index == d.index
  {
    hide Sort, NewGroup, Available, RemoveFromPolicies, ReownPolicies, PrunePolicies, GroupIndex, Thaw, NodesWithout, PolicyIndex,
      Covered;
  }
}
