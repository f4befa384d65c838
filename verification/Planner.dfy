/**
 Distributing the shards of a query over nodes and retrying elsewhere
 (coordinator/cluster_planning.go). The shuffle, the random pick and the iteration
 order of maps are arbitrary choices.
 */
module Planner {
  import opened MetaModel

  /** Shards to be sent to a node. */
  datatype Plan = Plan(node: nat, shards: seq<Shard>)

  datatype Assigned = Assigned(shard: Shard, node: nat)

  // ---------- bags of shards ----------

  function Bag(plans: seq<Plan>): (b: multiset<Shard>) {
    if plans == [] then multiset{}
    else Bag(plans[..|plans| - 1]) + multiset(plans[|plans| - 1].shards)
  }

  lemma BagSnoc(plans: seq<Plan>, p: Plan)
    ensures Bag(plans + [p]) == Bag(plans) + multiset(p.shards)
  {
    assert (plans + [p])[..|plans|] == plans;
  }

  // ---------- owners ----------

  function Allowed(owners: seq<nat>, blacklist: set<nat>): (r: seq<nat>)
    ensures forall x :: x in r <==> x in owners && x !in blacklist
  {
    if owners == [] then []
    else
      var n := |owners| - 1;
      assert owners == owners[..n] + [owners[n]];
      Allowed(owners[..n], blacklist) + if owners[n] in blacklist then [] else [owners[n]]
  }

  method GetOwners(blacklist: set<nat>, owners: seq<nat>) returns (arr: seq<nat>)
    ensures arr == Allowed(owners, blacklist)
  {
    if |blacklist| < 1 {
      NothingBlocked(owners, blacklist);
      return owners;
    }
    arr := [];
    for i := 0 to |owners|
      invariant arr == Allowed(owners[..i], blacklist)
    {
      assert owners[..i + 1][..i] == owners[..i];
      if owners[i] !in blacklist {
        arr := arr + [owners[i]];
      }
    }
    assert owners[..|owners|] == owners;
  }

  lemma {:induction false} NothingBlocked(owners: seq<nat>, blacklist: set<nat>)
    requires blacklist == {}
    ensures Allowed(owners, blacklist) == owners
  {
    if owners != [] {
      NothingBlocked(owners[..|owners| - 1], blacklist);
      assert owners == owners[..|owners| - 1] + [owners[|owners| - 1]];
    }
  }

  /** A shard that some node may be asked for. */
  predicate Plannable(s: Shard, current: nat, blacklist: set<nat>) {
    current in s.owners || Allowed(s.owners, blacklist) != []
  }

  function PlannableOf(shards: seq<Shard>, current: nat, blacklist: set<nat>): (r: seq<Shard>) {
    if shards == [] then []
    else
      var n := |shards| - 1;
      PlannableOf(shards[..n], current, blacklist)
      + if Plannable(shards[n], current, blacklist) then [shards[n]] else []
  }

  // ---------- planning ----------

  function ShardsTo(picks: seq<Assigned>, node: nat): (r: seq<Shard>) {
    if picks == [] then []
    else
      var a := picks[|picks| - 1];
      ShardsTo(picks[..|picks| - 1], node) + if a.node == node then [a.shard] else []
  }

  function ShardsOf(picks: seq<Assigned>): (r: seq<Shard>)
    ensures |r| == |picks|
  {
    seq(|picks|, i requires 0 <= i < |picks| => picks[i].shard)
  }

  /** The map holds for every node that was chosen exactly what was assigned to it, in order. */
  ghost predicate PlanOf(m: map<nat, seq<Shard>>, picks: seq<Assigned>) {
    forall n: nat :: (n in m <==> ShardsTo(picks, n) != []) && (n in m ==> m[n] == ShardsTo(picks, n))
  }

  /** Local shards stay local; others go to an owner that is not blacklisted. */
  ghost predicate Permitted(a: Assigned, current: nat, blacklist: set<nat>) {
    if current in a.shard.owners then a.node == current
    else a.node in a.shard.owners && a.node !in blacklist
  }

  ghost function NodesOf(picks: seq<Assigned>): (r: set<nat>) {
    set a | a in picks :: a.node
  }

  /** The first owner that is in use already, or the number of owners. */
  function FirstIn(owners: seq<nat>, chosen: set<nat>): (k: nat)
    ensures k <= |owners|
    ensures k < |owners| ==> owners[k] in chosen
    ensures forall i :: 0 <= i < k ==> owners[i] !in chosen
  {
    if owners == [] then 0 else if owners[0] in chosen then 0 else 1 + FirstIn(owners[1..], chosen)
  }

  ghost predicate Preferred(a: Assigned, chosen: set<nat>, current: nat, blacklist: set<nat>) {
    var allowed := Allowed(a.shard.owners, blacklist);
    var k := FirstIn(allowed, chosen);
    current in a.shard.owners || (if k < |allowed| then a.node == allowed[k] else a.node in allowed)
  }

  /** A remote shard goes to its first allowed owner in use, and opens a new node only when there is none. */
  ghost predicate Economical(picks: seq<Assigned>, current: nat, blacklist: set<nat>) {
    forall i :: 0 <= i < |picks| ==> Frugal(picks, i, current, blacklist)
  }

  ghost predicate Frugal(picks: seq<Assigned>, i: nat, current: nat, blacklist: set<nat>)
    requires i < |picks|
  {
    Preferred(picks[i], NodesOf(picks[..i]), current, blacklist)
  }

  lemma {:induction false} ShardsToSome(picks: seq<Assigned>, n: nat)
    ensures ShardsTo(picks, n) != [] <==> n in NodesOf(picks)
  {
    if picks != [] {
      var k := |picks| - 1;
      ShardsToSome(picks[..k], n);
      assert picks == picks[..k] + [picks[k]];
    }
  }

  lemma PlannedNodes(m: map<nat, seq<Shard>>, picks: seq<Assigned>)
    requires PlanOf(m, picks)
    ensures m.Keys == NodesOf(picks)
  {
    hide NodesOf, ShardsTo;
    forall n: nat ensures n in m <==> n in NodesOf(picks) {
      ShardsToSome(picks, n);
    }
  }

  lemma ShardsToSnoc(picks: seq<Assigned>, a: Assigned, n: nat)
    ensures ShardsTo(picks + [a], n) == ShardsTo(picks, n) + if a.node == n then [a.shard] else []
  {
    assert (picks + [a])[..|picks|] == picks;
  }

  lemma PlanGrows(m: map<nat, seq<Shard>>, picks: seq<Assigned>, a: Assigned)
    requires PlanOf(m, picks)
    ensures PlanOf(m[a.node := (if a.node in m then m[a.node] else []) + [a.shard]], picks + [a])
  {
    hide ShardsTo;
    forall n: nat ensures ShardsTo(picks + [a], n) == ShardsTo(picks, n) + if a.node == n then [a.shard] else [] {
      ShardsToSnoc(picks, a, n);
    }
  }

  /** `rand.Shuffle`: some permutation. */
  method Shuffle(s: seq<Shard>) returns (t: seq<Shard>)
    ensures multiset(t) == multiset(s) && |t| == |s|
  {
    t := s;
    var i := |t|;
    while i > 1
      invariant |t| == |s| && 0 <= i <= |t| && multiset(t) == multiset(s)
    {
      i := i - 1;
      var j :| 0 <= j <= i;
      t := t[i := t[j]][j := t[i]];
    }
  }

  /** The node for one shard: local, else one already chosen, else any; none without owners left. */
  method Choose(s: Shard, current: nat, blacklist: set<nat>, chosen: set<nat>) returns (found: bool, node: nat)
    ensures found == Plannable(s, current, blacklist)
    ensures found ==> Permitted(Assigned(s, node), current, blacklist)
    ensures found ==> Preferred(Assigned(s, node), chosen, current, blacklist)
  {
    if current in s.owners {
      return true, current;
    }
    var owners := GetOwners(blacklist, s.owners);
    if |owners| < 1 {
      return false, 0;
    }
    for i := 0 to |owners|
      invariant forall k :: 0 <= k < i ==> owners[k] !in chosen
    {
      if owners[i] in chosen {
        assert owners[i] in Allowed(s.owners, blacklist);
        return true, owners[i];
      }
    }
    var k :| 0 <= k < |owners|;
    assert owners[k] in Allowed(s.owners, blacklist);
    return true, owners[k];
  }

  /**
   `m` distributes exactly the plannable shards: the assignments `picks`, in some order,
   explain it.
   */
  ghost predicate Explains(picks: seq<Assigned>, m: map<nat, seq<Shard>>, current: nat, queried: seq<Shard>, blacklist: set<nat>) {
    && PlanOf(m, picks)
    && multiset(ShardsOf(picks)) == multiset(PlannableOf(queried, current, blacklist))
    && (forall i :: 0 <= i < |picks| ==> Permitted(picks[i], current, blacklist))
    && Economical(picks, current, blacklist)
  }

  /** `PlanNodes`: an exact partition of the shards that can be planned. */
  method PlanNodes(current: nat, queried: seq<Shard>, blacklist: set<nat>) returns (plan: map<nat, seq<Shard>>)
    ensures exists picks :: Explains(picks, plan, current, queried, blacklist)
  {
    hide Plannable, Permitted, PlanOf, ShardsTo, NodesOf, Frugal, Preferred;
    var shards := Shuffle(queried);
    plan := map[];
    ghost var picks := [];
    EmptyPlan();
    for i := 0 to |shards|
      invariant PlanOf(plan, picks)
      invariant ShardsOf(picks) == PlannableOf(shards[..i], current, blacklist)
      invariant forall k :: 0 <= k < |picks| ==> Permitted(picks[k], current, blacklist)
      invariant Economical(picks, current, blacklist)
    {
      assert shards[..i + 1][..i] == shards[..i];
      var found, node := Choose(shards[i], current, blacklist, plan.Keys);
      if found {
        ghost var a := Assigned(shards[i], node);
        PlannedNodes(plan, picks);
        EconomicalGrows(picks, a, current, blacklist);
        PlanGrows(plan, picks, a);
        plan := plan[node := (if node in plan then plan[node] else []) + [shards[i]]];
        picks := picks + [a];
        assert ShardsOf(picks) == PlannableOf(shards[..i], current, blacklist) + [shards[i]];
      }
    }
    assert shards[..|shards|] == shards;
    PlannableOfBag(shards, queried, current, blacklist);
    assert Explains(picks, plan, current, queried, blacklist);
  }

  /**
   Where each shard of a plan goes, told by the picks before it: the local node if it owns the
   shard; else the first of its owners, in their order, that is allowed and in use already; and
   only if there is none, some other allowed owner.
   */
  lemma PlanPreference(picks: seq<Assigned>, m: map<nat, seq<Shard>>, current: nat, queried: seq<Shard>,
                       blacklist: set<nat>, i: nat)
    requires Explains(picks, m, current, queried, blacklist) && i < |picks|
    ensures var owners, node, used := picks[i].shard.owners, picks[i].node, NodesOf(picks[..i]);
            && (current in owners ==> node == current)
            && (current !in owners ==> node in owners && node !in blacklist)
            && (current !in owners && node !in used ==> forall o :: o in owners && o !in blacklist ==> o !in used)
            && (current !in owners && node in used ==>
                  exists k :: 0 <= k < |owners| && owners[k] == node
                              && forall l :: 0 <= l < k && owners[l] !in blacklist ==> owners[l] !in used)
  {
    hide PlanOf, NodesOf, PlannableOf, ShardsOf, Allowed;
    var owners, node, used := picks[i].shard.owners, picks[i].node, NodesOf(picks[..i]);
    assert Permitted(picks[i], current, blacklist) && Frugal(picks, i, current, blacklist);
    if current !in owners {
      var allowed := Allowed(owners, blacklist);
      var k := FirstIn(allowed, used);
      if k < |allowed| {
        FirstInOwners(owners, blacklist, used);
      } else {
        forall o | o in owners && o !in blacklist ensures o !in used {
          var l :| 0 <= l < |allowed| && allowed[l] == o;
        }
      }
    }
  }

  /** The first allowed owner in use has no allowed owner in use before it. */
  lemma {:induction false} FirstInOwners(owners: seq<nat>, blacklist: set<nat>, used: set<nat>)
    requires FirstIn(Allowed(owners, blacklist), used) < |Allowed(owners, blacklist)|
    ensures var node := Allowed(owners, blacklist)[FirstIn(Allowed(owners, blacklist), used)];
            exists k :: 0 <= k < |owners| && owners[k] == node
                        && forall l :: 0 <= l < k && owners[l] !in blacklist ==> owners[l] !in used
  {
    var n := |owners| - 1;
    var front, all := Allowed(owners[..n], blacklist), Allowed(owners, blacklist);
    FirstInMore(front, all, used);
    if FirstIn(front, used) < |front| {
      FirstInOwners(owners[..n], blacklist, used);
      var node := front[FirstIn(front, used)];
      var k :| 0 <= k < n && owners[..n][k] == node
        && forall l :: 0 <= l < k && owners[..n][l] !in blacklist ==> owners[..n][l] !in used;
      assert owners[k] == node && forall l :: 0 <= l < k ==> owners[l] == owners[..n][l];
    } else {
      forall l | 0 <= l < n && owners[l] !in blacklist ensures owners[l] !in used {
        assert owners[..n][l] in owners[..n];
        assert owners[l] in front;
      }
      assert owners[n] == all[FirstIn(all, used)];
    }
  }

  lemma {:induction false} FirstInMore(front: seq<nat>, all: seq<nat>, used: set<nat>)
    requires front <= all
    ensures FirstIn(front, used) < |front| ==> FirstIn(all, used) == FirstIn(front, used)
    ensures FirstIn(front, used) == |front| ==> FirstIn(all, used) >= |front|
  {
    assert forall l :: 0 <= l < |front| ==> all[l] == front[l];
  }

  lemma EconomicalGrows(picks: seq<Assigned>, a: Assigned, current: nat, blacklist: set<nat>)
    requires Economical(picks, current, blacklist)
    requires Preferred(a, NodesOf(picks), current, blacklist)
    ensures Economical(picks + [a], current, blacklist)
  {
    hide NodesOf, Preferred;
    var more := picks + [a];
    forall i | 0 <= i < |more| ensures Frugal(more, i, current, blacklist) {
      assert more[..i] == picks[..i];
      if i < |picks| {
        assert Frugal(picks, i, current, blacklist);
      } else {
        assert picks[..i] == picks;
      }
    }
  }

  lemma EmptyPlan()
    ensures PlanOf(map[], [])
  {
  }

  lemma {:induction false} PlannableCount(shards: seq<Shard>, current: nat, blacklist: set<nat>, s: Shard)
    ensures multiset(PlannableOf(shards, current, blacklist))[s]
            == if Plannable(s, current, blacklist) then multiset(shards)[s] else 0
  {
    hide Plannable;
    if shards != [] {
      var n := |shards| - 1;
      PlannableCount(shards[..n], current, blacklist, s);
      assert shards == shards[..n] + [shards[n]];
    }
  }

  lemma PlannableOfBag(a: seq<Shard>, b: seq<Shard>, current: nat, blacklist: set<nat>)
    requires multiset(a) == multiset(b)
    ensures multiset(PlannableOf(a, current, blacklist)) == multiset(PlannableOf(b, current, blacklist))
  {
    hide PlannableOf, Plannable;
    forall s ensures multiset(PlannableOf(a, current, blacklist))[s] == multiset(PlannableOf(b, current, blacklist))[s] {
      PlannableCount(a, current, blacklist, s);
      PlannableCount(b, current, blacklist, s);
    }
  }

  // ---------- from a map to a list of plans ----------

  /** Shards assigned to the given nodes. */
  function ShardsAmong(picks: seq<Assigned>, nodes: set<nat>): (r: seq<Shard>) {
    if picks == [] then []
    else
      var a := picks[|picks| - 1];
      ShardsAmong(picks[..|picks| - 1], nodes) + if a.node in nodes then [a.shard] else []
  }

  lemma {:induction false} AmongOneMore(picks: seq<Assigned>, nodes: set<nat>, n: nat)
    requires n !in nodes
    ensures multiset(ShardsAmong(picks, nodes + {n})) == multiset(ShardsAmong(picks, nodes)) + multiset(ShardsTo(picks, n))
  {
    if picks != [] {
      AmongOneMore(picks[..|picks| - 1], nodes, n);
    }
  }

  lemma {:induction false} AmongAll(picks: seq<Assigned>, nodes: set<nat>)
    requires NodesOf(picks) <= nodes
    ensures ShardsAmong(picks, nodes) == ShardsOf(picks)
  {
    if picks != [] {
      var k := |picks| - 1;
      assert picks[k].node in NodesOf(picks);
      assert NodesOf(picks[..k]) <= NodesOf(picks);
      AmongAll(picks[..k], nodes);
    }
  }

  lemma {:induction false} AmongNone(picks: seq<Assigned>)
    ensures ShardsAmong(picks, {}) == []
  {
    if picks != [] {
      AmongNone(picks[..|picks| - 1]);
    }
  }

  ghost predicate DistinctNodes(plans: seq<Plan>) {
    forall i, j :: 0 <= i < j < |plans| ==> plans[i].node != plans[j].node
  }

  /** The entries of the map in some order. */
  ghost predicate Enumerates(plans: seq<Plan>, m: map<nat, seq<Shard>>) {
    DistinctNodes(plans) && forall p: Plan :: p in plans <==> p.node in m && p.shards == m[p.node]
  }

  /** Iterating over the map, in any order. */
  method Schedule(m: map<nat, seq<Shard>>) returns (plans: seq<Plan>)
    ensures Enumerates(plans, m)
  {
    plans := [];
    var left := m.Keys;
    while left != {}
      invariant left <= m.Keys
      invariant forall p: Plan :: p in plans <==> p.node in m && p.node !in left && p.shards == m[p.node]
      invariant DistinctNodes(plans)
      decreases left
    {
      var n :| n in left;
      plans := plans + [Plan(n, m[n])];
      left := left - {n};
    }
  }

  ghost function NodesIn(plans: seq<Plan>): (r: set<nat>) {
    set p | p in plans :: p.node
  }

  lemma NodesSnoc(plans: seq<Plan>, p: Plan)
    ensures NodesIn(plans + [p]) == NodesIn(plans) + {p.node}
  {
    assert p in plans + [p];
    assert forall x :: x in plans + [p] <==> x in plans || x == p;
  }

  lemma NoNodes()
    ensures NodesIn([]) == {}
  {
  }

  lemma NoPlans()
    ensures Bag([]) == multiset{}
  {
  }

  lemma {:induction false} BagAmong(plans: seq<Plan>, picks: seq<Assigned>)
    requires DistinctNodes(plans) && forall i :: 0 <= i < |plans| ==> plans[i].shards == ShardsTo(picks, plans[i].node)
    ensures Bag(plans) == multiset(ShardsAmong(picks, NodesIn(plans)))
  {
    hide ShardsAmong, ShardsTo, Bag, NodesIn;
    if plans == [] {
      NoPlans();
      NoNodes();
      AmongNone(picks);
    } else {
      var k := |plans| - 1;
      BagAmong(plans[..k], picks);
      assert plans == plans[..k] + [plans[k]];
      BagSnoc(plans[..k], plans[k]);
      NodesSnoc(plans[..k], plans[k]);
      NotAmong(plans[..k], plans[k].node);
      AmongOneMore(picks, NodesIn(plans[..k]), plans[k].node);
    }
  }

  lemma NotAmong(plans: seq<Plan>, n: nat)
    requires forall i :: 0 <= i < |plans| ==> plans[i].node != n
    ensures n !in NodesIn(plans)
  {
  }

  /** In whatever order the map is iterated over, the plans hold every assigned shard once. */
  lemma EnumerationBag(plans: seq<Plan>, m: map<nat, seq<Shard>>, picks: seq<Assigned>)
    requires Enumerates(plans, m) && PlanOf(m, picks)
    ensures Bag(plans) == multiset(ShardsOf(picks))
  {
    hide ShardsAmong, ShardsTo, ShardsOf, Bag, NodesOf;
    PlannedNodes(m, picks);
    forall i | 0 <= i < |plans| ensures plans[i].shards == ShardsTo(picks, plans[i].node) {
      assert plans[i] in plans;
    }
    forall n | n in m ensures n in NodesIn(plans) {
      assert Plan(n, m[n]) in plans;
    }
    BagAmong(plans, picks);
    AmongAll(picks, NodesIn(plans));
  }
}
