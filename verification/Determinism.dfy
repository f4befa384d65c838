/**
 Replicas apply the same commands with different clocks. The clock only ends up in
 the deletion stamps of shard groups, so replicas agree on everything else: `Norm`
 forgets the stamps but not whether there is one, and every command commutes with it.
 */
module Determinism {
  import opened Lists
  import opened MetaModel
  import opened MetaOps
  import opened NodeRemoval
  import opened Placement

  function NormGroup(g: Group): (r: Group) {
    if g.Deleted() then g.(deletedAt := 1) else g
  }

  function NormGroups(gs: seq<Group>): (r: seq<Group>)
    ensures |r| == |gs|
  {
    seq(|gs|, i requires 0 <= i < |gs| => NormGroup(gs[i]))
  }

  function NormPolicy(p: Policy): (r: Policy) {
    p.(groups := NormGroups(p.groups))
  }

  function NormPolicies(ps: seq<Policy>): (r: seq<Policy>)
    ensures |r| == |ps|
  {
    seq(|ps|, i requires 0 <= i < |ps| => NormPolicy(ps[i]))
  }

  function Norm(d: Meta): (r: Meta) {
    d.(policies := NormPolicies(d.policies))
  }

  /** Equal up to the values of deletion stamps. */
  ghost predicate Agree(d: Meta, e: Meta) {
    Norm(d) == Norm(e)
  }

  // ---------- removing a node ----------

  lemma RemoveGroupCommutes(g: Group, id: nat, now: int)
    requires now != 0
    ensures var r, s := RemoveFromGroup(g, id, now), RemoveFromGroup(NormGroup(g), id, 1);
            && r.None? == s.None?
            && (r.Some? ==> NormGroup(r.value) == s.value)
  {
    hide Reassign, DropOwner, OrphanIds, FreqMap;
  }

  lemma {:induction false} RemoveGroupsCommutes(gs: seq<Group>, id: nat, now: int)
    requires now != 0
    ensures var r, s := RemoveFromGroups(gs, id, now), RemoveFromGroups(NormGroups(gs), id, 1);
            && r.None? == s.None?
            && (r.Some? ==> NormGroups(r.value) == s.value)
  {
    hide RemoveFromGroup, NormGroup;
    if gs != [] {
      var n := |gs| - 1;
      assert NormGroups(gs)[..n] == NormGroups(gs[..n]);
      RemoveGroupsCommutes(gs[..n], id, now);
      RemoveGroupCommutes(gs[n], id, now);
    }
  }

  lemma {:induction false} RemovePoliciesCommutes(ps: seq<Policy>, id: nat, now: int)
    requires now != 0
    ensures var r, s := RemoveFromPolicies(ps, id, now), RemoveFromPolicies(NormPolicies(ps), id, 1);
            && r.None? == s.None?
            && (r.Some? ==> NormPolicies(r.value) == s.value)
  {
    hide RemoveFromGroups, NormGroups;
    if ps != [] {
      var n := |ps| - 1;
      assert NormPolicies(ps)[..n] == NormPolicies(ps[..n]);
      RemovePoliciesCommutes(ps[..n], id, now);
      RemoveGroupsCommutes(ps[n].groups, id, now);
    }
  }

  // ---------- groups ----------

  lemma {:induction false} InsertCommutes(gs: seq<Group>, g: Group)
    ensures NormGroups(Insert(gs, g, GroupLess)) == Insert(NormGroups(gs), NormGroup(g), GroupLess)
  {
    if gs != [] {
      var n := |gs| - 1;
      assert NormGroups(gs)[..n] == NormGroups(gs[..n]);
      InsertCommutes(gs[..n], g);
    }
  }

  lemma {:induction false} SortCommutes(gs: seq<Group>)
    ensures NormGroups(Sort(gs, GroupLess)) == Sort(NormGroups(gs), GroupLess)
  {
    hide Insert, NormGroup;
    if gs != [] {
      var n := |gs| - 1;
      assert NormGroups(gs)[..n] == NormGroups(gs[..n]);
      SortCommutes(gs[..n]);
      InsertCommutes(Sort(gs[..n], GroupLess), gs[n]);
    }
  }

  lemma CoveredSame(gs: seq<Group>, t: int)
    ensures Covered(NormGroups(gs), t) <==> Covered(gs, t)
  {
    assert forall i :: 0 <= i < |gs| ==> NormGroups(gs)[i].Covers(t) == gs[i].Covers(t);
  }

  lemma {:induction false} PolicyIndexSame(ps: seq<Policy>, db: string, name: string)
    ensures PolicyIndex(NormPolicies(ps), db, name) == PolicyIndex(ps, db, name)
  {
    if ps != [] {
      assert NormPolicies(ps)[1..] == NormPolicies(ps[1..]);
      PolicyIndexSame(ps[1..], db, name);
    }
  }

  lemma {:induction false} GroupIndexSame(gs: seq<Group>, id: nat)
    ensures GroupIndex(NormGroups(gs), id) == GroupIndex(gs, id)
  {
    if gs != [] {
      assert NormGroups(gs)[1..] == NormGroups(gs[1..]);
      GroupIndexSame(gs[1..], id);
    }
  }

  lemma CreateGroupCommutes(d: Meta, db: string, name: string, t: int)
    ensures var r, s := CreateGroup(d, db, name, t), CreateGroup(Norm(d), db, name, t);
            r.err == s.err && Norm(r.meta) == s.meta
  {
    hide Sort, Available, ShardsDealt, PolicyIndex, Covered;
    PolicyIndexSame(d.policies, db, name);
    var i := PolicyIndex(d.policies, db, name);
    if i < |d.policies| {
      var p := d.policies[i];
      CoveredSame(p.groups, t);
      var avail := Available(d.dataNodes, d.frozen);
      var replicaN := Replicas(p.replicaN, |avail|);
      if avail != [] && replicaN > 0 {
        var g := NewGroup(d, p, t, avail, replicaN);
        assert NewGroup(Norm(d), NormPolicy(p), t, avail, replicaN) == g == NormGroup(g);
        SortCommutes(p.groups + [g]);
        assert NormGroups(p.groups + [g]) == NormGroups(p.groups) + [g];
        var q := p.(groups := Sort(p.groups + [g], GroupLess));
        assert NormPolicies(d.policies[i := q]) == NormPolicies(d.policies)[i := NormPolicy(q)];
      }
    }
  }

  lemma DeleteGroupCommutes(d: Meta, db: string, name: string, id: nat, now: int)
    requires now != 0
    ensures var r, s := DeleteGroup(d, db, name, id, now), DeleteGroup(Norm(d), db, name, id, 1);
            r.err == s.err && Norm(r.meta) == s.meta
  {
    hide PolicyIndex, GroupIndex;
    PolicyIndexSame(d.policies, db, name);
    var i := PolicyIndex(d.policies, db, name);
    if i < |d.policies| {
      var p := d.policies[i];
      GroupIndexSame(p.groups, id);
      var j := GroupIndex(p.groups, id);
      if j < |p.groups| {
        var gs := p.groups[j := p.groups[j].(deletedAt := now)];
        assert NormGroups(gs) == NormGroups(p.groups)[j := NormGroup(p.groups[j]).(deletedAt := 1)];
        var q := p.(groups := gs);
        assert NormPolicies(d.policies[i := q]) == NormPolicies(d.policies)[i := NormPolicy(q)];
      }
    }
  }

  // ---------- owners ----------

  lemma {:induction false} ReownGroupsCommutes(gs: seq<Group>, id: nat, node: nat, add: bool)
    ensures var r, s := ReownGroups(gs, id, node, add), ReownGroups(NormGroups(gs), id, node, add);
            r.None? == s.None? && (r.Some? ==> NormGroups(r.value) == s.value)
  {
    hide ReownShards;
    if gs != [] {
      assert NormGroups(gs)[1..] == NormGroups(gs[1..]);
      ReownGroupsCommutes(gs[1..], id, node, add);
    }
  }

  lemma {:induction false} ReownPoliciesCommutes(ps: seq<Policy>, id: nat, node: nat, add: bool)
    ensures var r, s := ReownPolicies(ps, id, node, add), ReownPolicies(NormPolicies(ps), id, node, add);
            r.None? == s.None? && (r.Some? ==> NormPolicies(r.value) == s.value)
  {
    hide ReownGroups, NormGroups;
    if ps != [] {
      assert NormPolicies(ps)[1..] == NormPolicies(ps[1..]);
      ReownGroupsCommutes(ps[0].groups, id, node, add);
      ReownPoliciesCommutes(ps[1..], id, node, add);
    }
  }

  // ---------- every command ----------

  lemma ChangeCommutes(d: Meta, c: Cmd, now: int)
    requires now != 0 && !c.PruneShardGroups?
    ensures var r, s := Change(d, c, now), Change(Norm(d), c, 1);
            r.err == s.err && Norm(r.meta) == s.meta
  {
    hide CreateGroup, DeleteGroup, ReownPolicies, RemoveFromPolicies, NormPolicies, Sort, NodeIds;
    match c {
      case DeleteDataNode(id) => RemovePoliciesCommutes(d.policies, id, now);
      case CreateShardGroup(db, policy, t) => CreateGroupCommutes(d, db, policy, t);
      case AddShardOwner(shard, node) => ReownPoliciesCommutes(d.policies, shard, node, true);
      case RemoveShardOwner(shard, node) => ReownPoliciesCommutes(d.policies, shard, node, false);
      case DeleteShardGroup(db, policy, id) => DeleteGroupCommutes(d, db, policy, id, now);
      case _ =>
    }
  }

  lemma NothingToDoSame(d: Meta, c: Cmd)
    requires !c.PruneShardGroups?
    ensures NothingToDo(d, c) <==> NothingToDo(Norm(d), c)
  {
    hide PolicyIndex, Covered;
    if c.CreateShardGroup? {
      PolicyIndexSame(d.policies, c.db, c.policy);
      var i := PolicyIndex(d.policies, c.db, c.policy);
      if i < |d.policies| {
        CoveredSame(d.policies[i].groups, c.t);
      }
    }
  }

  lemma ApplyCommutes(d: Meta, c: Cmd, now: int)
    requires now != 0 && !c.PruneShardGroups?
    ensures var r, s := Apply(d, c, now), Apply(Norm(d), c, 1);
            r.err == s.err && Norm(r.meta) == s.meta
  {
    hide Change, NothingToDo;
    ChangeCommutes(d, c, now);
    NothingToDoSame(d, c);
  }

  /**
   Replica determinism: replicas that agree answer a command with the same error and
   still agree, however far their clocks are apart.
   */
  lemma ReplicasStayInAgreement(d: Meta, e: Meta, c: Cmd, now: int, later: int)
    requires Agree(d, e) && now != 0 && later != 0 && !c.PruneShardGroups?
    ensures Apply(d, c, now).err == Apply(e, c, later).err
    ensures Agree(Apply(d, c, now).meta, Apply(e, c, later).meta)
  {
    hide Apply, Norm;
    ApplyCommutes(d, c, now);
    ApplyCommutes(e, c, later);
  }

  // ---------- the checksum ----------

  const UNIX_EPOCH: int := 62135596800_000_000_000

  function ClearGroup(g: Group): (r: Group) {
    g.(deletedAt := UNIX_EPOCH, truncatedAt := UNIX_EPOCH)
  }

  function ClearPolicy(p: Policy): (r: Policy) {
    p.(groups := seq(|p.groups|, i requires 0 <= i < |p.groups| => ClearGroup(p.groups[i])))
  }

  /** What the checksum is computed from: the metadata with the stamps of all groups overwritten. */
  function ChecksumInput(d: Meta): (r: Meta) {
    d.(policies := seq(|d.policies|, i requires 0 <= i < |d.policies| => ClearPolicy(d.policies[i])))
  }

  lemma ChecksumOfNorm(d: Meta)
    ensures ChecksumInput(Norm(d)) == ChecksumInput(d)
  {
    var e := Norm(d);
    forall i | 0 <= i < |d.policies| ensures ClearPolicy(e.policies[i]) == ClearPolicy(d.policies[i]) {
      assert e.policies[i] == NormPolicy(d.policies[i]);
      assert ClearPolicy(e.policies[i]).groups == ClearPolicy(d.policies[i]).groups;
    }
  }

  /** Replicas that agree compute their checksum from the same value. */
  lemma AgreeSameChecksum(d: Meta, e: Meta)
    requires Agree(d, e)
    ensures ChecksumInput(d) == ChecksumInput(e)
  {
    hide Norm, ChecksumInput;
    ChecksumOfNorm(d);
    ChecksumOfNorm(e);
  }

  /** Equal but for the stamps of the groups, for which only `same` is asked. */
  ghost predicate EqualUpTo(d: Meta, e: Meta, same: (Group, Group) -> bool) {
    && d.(policies := []) == e.(policies := []) && |d.policies| == |e.policies|
    && forall i :: 0 <= i < |d.policies| ==>
         && d.policies[i].(groups := []) == e.policies[i].(groups := [])
         && |d.policies[i].groups| == |e.policies[i].groups|
         && forall j :: 0 <= j < |d.policies[i].groups| ==>
              var g, h := d.policies[i].groups[j], e.policies[i].groups[j];
              && g.id == h.id && g.start == h.start && g.end == h.end && g.shards == h.shards
              && same(g, h)
  }

  predicate AnyStamps(g: Group, h: Group) {
    true
  }

  predicate SameState(g: Group, h: Group) {
    (g.deletedAt == 0 <==> h.deletedAt == 0) && g.truncatedAt == h.truncatedAt
  }

  lemma GroupsEqual(gs: seq<Group>, hs: seq<Group>, f: Group -> Group)
    requires |gs| == |hs| && forall j :: 0 <= j < |gs| ==> f(gs[j]) == f(hs[j])
    ensures seq(|gs|, j requires 0 <= j < |gs| => f(gs[j])) == seq(|hs|, j requires 0 <= j < |hs| => f(hs[j]))
  {
  }

  /** Two replicas have the same checksum exactly if they are equal up to all stamps, also whether there is one. */
  lemma ChecksumSees(d: Meta, e: Meta)
    ensures ChecksumInput(d) == ChecksumInput(e) <==> EqualUpTo(d, e, AnyStamps)
  {
    if ChecksumInput(d) == ChecksumInput(e) {
      assert |d.policies| == |ChecksumInput(d).policies| == |ChecksumInput(e).policies| == |e.policies|;
      assert d.(policies := []) == ChecksumInput(d).(policies := []) == ChecksumInput(e).(policies := []) == e.(policies := []);
      forall i | 0 <= i < |d.policies|
        ensures d.policies[i].(groups := []) == e.policies[i].(groups := [])
        ensures |d.policies[i].groups| == |e.policies[i].groups|
        ensures forall j :: 0 <= j < |d.policies[i].groups| ==>
                  ClearGroup(d.policies[i].groups[j]) == ClearGroup(e.policies[i].groups[j])
      {
        var p, q := d.policies[i], e.policies[i];
        assert ClearPolicy(p) == ChecksumInput(d).policies[i] == ChecksumInput(e).policies[i] == ClearPolicy(q);
        assert |p.groups| == |ClearPolicy(p).groups| == |ClearPolicy(q).groups| == |q.groups|;
        assert p.(groups := []) == ClearPolicy(p).(groups := []) == ClearPolicy(q).(groups := []) == q.(groups := []);
        forall j | 0 <= j < |p.groups| ensures ClearGroup(p.groups[j]) == ClearGroup(q.groups[j]) {
          assert ClearPolicy(p).groups[j] == ClearPolicy(q).groups[j];
        }
      }
    }
    if EqualUpTo(d, e, AnyStamps) {
      forall i | 0 <= i < |d.policies| ensures ClearPolicy(d.policies[i]) == ClearPolicy(e.policies[i]) {
        GroupsEqual(d.policies[i].groups, e.policies[i].groups, ClearGroup);
      }
    }
  }

  /** Two replicas agree exactly if they are equal up to when, but not whether, groups were deleted. */
  lemma AgreeExact(d: Meta, e: Meta)
    ensures Agree(d, e) <==> EqualUpTo(d, e, SameState)
  {
    if Agree(d, e) {
      assert |d.policies| == |Norm(d).policies| == |Norm(e).policies| == |e.policies|;
      assert d.(policies := []) == Norm(d).(policies := []) == Norm(e).(policies := []) == e.(policies := []);
      forall i | 0 <= i < |d.policies|
        ensures d.policies[i].(groups := []) == e.policies[i].(groups := [])
        ensures |d.policies[i].groups| == |e.policies[i].groups|
        ensures forall j :: 0 <= j < |d.policies[i].groups| ==>
                  NormGroup(d.policies[i].groups[j]) == NormGroup(e.policies[i].groups[j])
      {
        var p, q := d.policies[i], e.policies[i];
        assert NormPolicy(p) == Norm(d).policies[i] == Norm(e).policies[i] == NormPolicy(q);
        assert |p.groups| == |NormPolicy(p).groups| == |NormPolicy(q).groups| == |q.groups|;
        assert p.(groups := []) == NormPolicy(p).(groups := []) == NormPolicy(q).(groups := []) == q.(groups := []);
        forall j | 0 <= j < |p.groups| ensures NormGroup(p.groups[j]) == NormGroup(q.groups[j]) {
          assert NormPolicy(p).groups[j] == NormPolicy(q).groups[j];
        }
      }
    }
    if EqualUpTo(d, e, SameState) {
      forall i | 0 <= i < |d.policies| ensures NormPolicy(d.policies[i]) == NormPolicy(e.policies[i]) {
        GroupsEqual(d.policies[i].groups, e.policies[i].groups, NormGroup);
      }
    }
  }

  // ---------- pruning is the exception ----------

  function GroupIds(gs: seq<Group>): (ids: seq<nat>)
    ensures |ids| == |gs|
  {
    seq(|gs|, i requires 0 <= i < |gs| => gs[i].id)
  }

  /** The same groups have outlived `expiration` on both sides. */
  ghost predicate SameExpired(gs: seq<Group>, hs: seq<Group>, expiration: int) {
    |gs| == |hs| && forall i :: 0 <= i < |gs| ==> (Expired(gs[i], expiration) <==> Expired(hs[i], expiration))
  }

  lemma {:induction false} RemainingAgree(gs: seq<Group>, hs: seq<Group>, expiration: int)
    requires NormGroups(gs) == NormGroups(hs) && SameExpired(gs, hs, expiration)
    ensures NormGroups(Remaining(gs, expiration)) == NormGroups(Remaining(hs, expiration))
  {
    hide Expired, NormGroup;
    assert |gs| == |NormGroups(gs)| == |NormGroups(hs)| == |hs|;
    if gs != [] {
      var n := |gs| - 1;
      assert NormGroups(gs[..n]) == NormGroups(gs)[..n] && NormGroups(hs[..n]) == NormGroups(hs)[..n];
      RemainingAgree(gs[..n], hs[..n], expiration);
      assert NormGroups(gs)[n] == NormGroups(hs)[n];
      NormSnoc(Remaining(gs[..n], expiration), gs[n]);
      NormSnoc(Remaining(hs[..n], expiration), hs[n]);
      assert Remaining(gs[..n], expiration) + [] == Remaining(gs[..n], expiration);
      assert Remaining(hs[..n], expiration) + [] == Remaining(hs[..n], expiration);
    }
  }

  lemma NormSnoc(gs: seq<Group>, g: Group)
    ensures NormGroups(gs + [g]) == NormGroups(gs) + [NormGroup(g)]
  {
  }

  /** With distinct ids, a group gone on one side only cannot be made up for by another. */
  lemma RemainingDiffer(gs: seq<Group>, hs: seq<Group>, expiration: int, j: nat)
    requires NormGroups(gs) == NormGroups(hs) && Distinct(GroupIds(gs)) && j < |gs| == |hs|
    requires Expired(gs[j], expiration) && !Expired(hs[j], expiration)
    ensures NormGroups(Remaining(gs, expiration)) != NormGroups(Remaining(hs, expiration))
  {
    hide Expired, Remaining, NormGroups, Distinct, GroupIds;
    var a, b := Remaining(gs, expiration), Remaining(hs, expiration);
    RemainingAre(hs, expiration);
    assert hs[j] in b;
    var k :| 0 <= k < |b| && b[k] == hs[j];
    NormSameId(gs, hs, j);
    if NormGroups(a) == NormGroups(b) {
      NormSameId(a, b, k);
      RemainingAre(gs, expiration);
      assert a[k] in a;
      SameIdSameGroup(gs, a[k], j);
    }
  }

  lemma NormSameId(gs: seq<Group>, hs: seq<Group>, j: nat)
    requires NormGroups(gs) == NormGroups(hs) && j < |hs|
    ensures |gs| == |hs| && gs[j].id == hs[j].id
  {
    assert |gs| == |NormGroups(gs)| == |hs|;
    assert NormGroups(gs)[j] == NormGroups(hs)[j];
  }

  lemma SameIdSameGroup(gs: seq<Group>, g: Group, j: nat)
    requires Distinct(GroupIds(gs)) && j < |gs| && g in gs && g.id == gs[j].id
    ensures g == gs[j]
  {
    var m :| 0 <= m < |gs| && gs[m] == g;
    assert GroupIds(gs)[m] == GroupIds(gs)[j];
  }

  /**
   Pruning keeps two lists of groups in agreement exactly when the expiration falls on
   the same side of both stamps of every group.
   */
  lemma RemainingAgreeExact(gs: seq<Group>, hs: seq<Group>, expiration: int)
    requires NormGroups(gs) == NormGroups(hs) && Distinct(GroupIds(gs))
    ensures NormGroups(Remaining(gs, expiration)) == NormGroups(Remaining(hs, expiration))
            <==> SameExpired(gs, hs, expiration)
  {
    hide Expired, Remaining;
    assert |gs| == |NormGroups(gs)| == |NormGroups(hs)| == |hs|;
    if SameExpired(gs, hs, expiration) {
      RemainingAgree(gs, hs, expiration);
    } else {
      var j :| 0 <= j < |gs| && Expired(gs[j], expiration) != Expired(hs[j], expiration);
      SameGroupIds(gs, hs);
      if Expired(gs[j], expiration) {
        RemainingDiffer(gs, hs, expiration, j);
      } else {
        RemainingDiffer(hs, gs, expiration, j);
      }
    }
  }

  lemma SameGroupIds(gs: seq<Group>, hs: seq<Group>)
    requires NormGroups(gs) == NormGroups(hs)
    ensures GroupIds(gs) == GroupIds(hs)
  {
    assert |gs| == |NormGroups(gs)| == |NormGroups(hs)| == |hs|;
    forall i | 0 <= i < |gs| ensures gs[i].id == hs[i].id {
      assert NormGroups(gs)[i] == NormGroups(hs)[i];
    }
  }

  // ---------- whole states ----------

  ghost predicate SamePruned(d: Meta, e: Meta, expiration: int) {
    && |d.policies| == |e.policies|
    && forall i :: 0 <= i < |d.policies| ==> SameExpired(d.policies[i].groups, e.policies[i].groups, expiration)
  }

  ghost predicate IdsDistinct(d: Meta) {
    forall i :: 0 <= i < |d.policies| ==> Distinct(GroupIds(d.policies[i].groups))
  }

  ghost predicate NoneExpired(gs: seq<Group>, expiration: int) {
    forall i :: 0 <= i < |gs| ==> !Expired(gs[i], expiration)
  }

  lemma NoneExpiredSnoc(gs: seq<Group>, g: Group, expiration: int)
    ensures NoneExpired(gs + [g], expiration) <==> NoneExpired(gs, expiration) && !Expired(g, expiration)
  {
    hide Expired;
    var hs := gs + [g];
    assert hs[|gs|] == g && forall i :: 0 <= i < |gs| ==> hs[i] == gs[i];
  }

  lemma {:induction false} RemainingAll(gs: seq<Group>, expiration: int)
    ensures Remaining(gs, expiration) == gs <==> NoneExpired(gs, expiration)
  {
    if gs != [] {
      hide Expired, NoneExpired;
      var n := |gs| - 1;
      var r := Remaining(gs[..n], expiration);
      RemainingAll(gs[..n], expiration);
      assert gs == gs[..n] + [gs[n]];
      NoneExpiredSnoc(gs[..n], gs[n], expiration);
      if !Expired(gs[n], expiration) {
        assert Remaining(gs, expiration) == r + [gs[n]];
        if r + [gs[n]] == gs {
          assert r == (r + [gs[n]])[..|r|];
        }
      }
    }
  }

  /** A prune without effect leaves the index alone, so it must be without effect on both sides. */
  lemma IdleTogether(d: Meta, e: Meta, expiration: int)
    requires SamePruned(d, e, expiration)
    ensures PrunePolicies(d.policies, expiration) == d.policies <==> PrunePolicies(e.policies, expiration) == e.policies
  {
    hide Expired, PrunePolicies;
    IdleExact(d.policies, expiration);
    IdleExact(e.policies, expiration);
    forall i | 0 <= i < |d.policies|
      ensures NoneExpired(d.policies[i].groups, expiration) <==> NoneExpired(e.policies[i].groups, expiration)
    {
      assert SameExpired(d.policies[i].groups, e.policies[i].groups, expiration);
    }
  }

  lemma IdleExact(ps: seq<Policy>, expiration: int)
    ensures PrunePolicies(ps, expiration) == ps <==>
      forall i :: 0 <= i < |ps| ==> NoneExpired(ps[i].groups, expiration)
  {
    hide NoneExpired, Remaining;
    var qs := PrunePolicies(ps, expiration);
    forall i | 0 <= i < |ps| ensures qs[i] == ps[i] <==> NoneExpired(ps[i].groups, expiration) {
      RemainingAll(ps[i].groups, expiration);
    }
    if forall i :: 0 <= i < |ps| ==> qs[i] == ps[i] {
      assert qs == ps;
    }
  }

  lemma PrunedPolicies(d: Meta, expiration: int, now: int)
    ensures Apply(d, PruneShardGroups(expiration), now).meta ==
            d.(policies := PrunePolicies(d.policies, expiration),
               index := if PrunePolicies(d.policies, expiration) == d.policies then d.index else d.index + 1)
  {
    hide PrunePolicies;
  }

  lemma PoliciesAgreeExact(ps: seq<Policy>, qs: seq<Policy>, expiration: int)
    requires NormPolicies(ps) == NormPolicies(qs)
    requires forall i :: 0 <= i < |ps| ==> Distinct(GroupIds(ps[i].groups))
    ensures |ps| == |qs|
    ensures NormPolicies(PrunePolicies(ps, expiration)) == NormPolicies(PrunePolicies(qs, expiration)) <==>
      forall i :: 0 <= i < |ps| ==> SameExpired(ps[i].groups, qs[i].groups, expiration)
  {
    hide Remaining, NormGroups, SameExpired, Distinct, GroupIds;
    assert |ps| == |NormPolicies(ps)| == |NormPolicies(qs)| == |qs|;
    var a, b := NormPolicies(PrunePolicies(ps, expiration)), NormPolicies(PrunePolicies(qs, expiration));
    forall i | 0 <= i < |ps| ensures a[i] == b[i] <==> SameExpired(ps[i].groups, qs[i].groups, expiration) {
      assert NormPolicies(ps)[i] == NormPolicies(qs)[i];
      RemainingAgreeExact(ps[i].groups, qs[i].groups, expiration);
      assert a[i] == ps[i].(groups := NormGroups(Remaining(ps[i].groups, expiration)));
      assert b[i] == qs[i].(groups := NormGroups(Remaining(qs[i].groups, expiration)));
      assert ps[i].(groups := []) == qs[i].(groups := []);
    }
  }

  lemma PoliciesAgree(ps: seq<Policy>, qs: seq<Policy>, expiration: int)
    requires NormPolicies(ps) == NormPolicies(qs) && |ps| == |qs|
    requires forall i :: 0 <= i < |ps| ==> SameExpired(ps[i].groups, qs[i].groups, expiration)
    ensures NormPolicies(PrunePolicies(ps, expiration)) == NormPolicies(PrunePolicies(qs, expiration))
  {
    hide Remaining, NormGroups, SameExpired;
    var a, b := NormPolicies(PrunePolicies(ps, expiration)), NormPolicies(PrunePolicies(qs, expiration));
    forall i | 0 <= i < |ps| ensures a[i] == b[i] {
      assert NormPolicies(ps)[i] == NormPolicies(qs)[i];
      RemainingAgree(ps[i].groups, qs[i].groups, expiration);
      assert a[i] == ps[i].(groups := NormGroups(Remaining(ps[i].groups, expiration)));
      assert b[i] == qs[i].(groups := NormGroups(Remaining(qs[i].groups, expiration)));
      assert ps[i].(groups := []) == qs[i].(groups := []);
    }
  }

  /** Two replicas that agree and call the same groups expired agree after the prune. */
  lemma PruneKeepsAgreement(d: Meta, e: Meta, expiration: int, now: int, later: int)
    requires Agree(d, e) && SamePruned(d, e, expiration)
    ensures Agree(Apply(d, PruneShardGroups(expiration), now).meta, Apply(e, PruneShardGroups(expiration), later).meta)
  {
    hide PrunePolicies, NormPolicies, Apply;
    PrunedPolicies(d, expiration, now);
    PrunedPolicies(e, expiration, later);
    assert NormPolicies(d.policies) == Norm(d).policies == Norm(e).policies == NormPolicies(e.policies);
    PoliciesAgree(d.policies, e.policies, expiration);
    IdleTogether(d, e, expiration);
    assert d.(policies := []) == Norm(d).(policies := []) == Norm(e).(policies := []) == e.(policies := []);
  }

  /**
   Two replicas that agree still do after the same prune exactly when the expiration falls
   on the same side of both stamps of every group of every policy.
   */
  lemma PruneAgreementExact(d: Meta, e: Meta, expiration: int, now: int, later: int)
    requires Agree(d, e) && IdsDistinct(d)
    ensures Agree(Apply(d, PruneShardGroups(expiration), now).meta, Apply(e, PruneShardGroups(expiration), later).meta)
            <==> SamePruned(d, e, expiration)
  {
    hide PrunePolicies, NormPolicies, Apply, Distinct;
    PrunedPolicies(d, expiration, now);
    PrunedPolicies(e, expiration, later);
    assert NormPolicies(d.policies) == Norm(d).policies == Norm(e).policies == NormPolicies(e.policies);
    PoliciesAgreeExact(d.policies, e.policies, expiration);
    if SamePruned(d, e, expiration) {
      IdleTogether(d, e, expiration);
    }
    assert d.(policies := []) == Norm(d).(policies := []) == Norm(e).(policies := []) == e.(policies := []);
  }

  lemma OneRemaining(g: Group, expiration: int)
    ensures Remaining([g], expiration) == if Expired(g, expiration) then [] else [g]
  {
    assert [g][..0] == [];
    assert Remaining([g][..0], expiration) == [];
  }
}
