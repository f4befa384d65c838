/**
 Node 0 as an owner of a shard (coordinator/cluster_planning.go). Planning again is done for
 the current node 0, so such a shard counts as local however often node 0 refused, and the
 retry loop need not end.
 */
module EndlessRetry {
  import opened MetaModel
  import opened Planner
  import opened QueryRetry

  /** How many calls the first `k` rounds make. */
  ghost function CallsOf(rounds: seq<seq<Plan>>, k: nat): (n: nat)
    requires k <= |rounds|
  {
    if k == 0 then 0 else CallsOf(rounds, k - 1) + |rounds[k - 1]|
  }

  /** The plans that are refused in round `k`. */
  ghost function RefusedIn(rounds: seq<seq<Plan>>, fn: QueryFn, k: nat): (again: seq<Plan>)
    requires k < |rounds|
  {
    Refused(Round(rounds[k], fn, CallsOf(rounds, k)))
  }

  /** The nodes to skip after the first `k` rounds. */
  ghost function SkippedAfter(rounds: seq<seq<Plan>>, fn: QueryFn, k: nat): (skips: set<nat>)
    requires k <= |rounds|
  {
    if k == 0 then {} else SkippedAfter(rounds, fn, k - 1) + NodesIn(RefusedIn(rounds, fn, k - 1))
  }

  /** The loop goes from round `k` to round `k + 1`. */
  ghost predicate Continues(rounds: seq<seq<Plan>>, fn: QueryFn, k: nat)
    requires k + 1 < |rounds|
  {
    RefusedIn(rounds, fn, k) != [] && Replanned(RefusedIn(rounds, fn, k), SkippedAfter(rounds, fn, k + 1), rounds[k + 1])
  }

  /** `rounds` are the first rounds of `executePlanWithRetry`. */
  ghost predicate Looping(first: Plan, fn: QueryFn, rounds: seq<seq<Plan>>) {
    rounds != [] && rounds[0] == [first] && forall k :: 0 <= k < |rounds| - 1 ==> Continues(rounds, fn, k)
  }

  /** A plan of the round that is refused carries the shard. */
  ghost predicate Carried(plans: seq<Plan>, down: set<nat>, s: Shard) {
    exists p :: p in plans && p.node in down && s in p.shards
  }

  lemma CarriedIsRefused(plans: seq<Plan>, fn: QueryFn, down: set<nat>, before: nat, s: Shard)
    requires Refuses(fn, down) && Carried(plans, down, s)
    ensures s in Bag(Refused(Round(plans, fn, before)))
    ensures Refused(Round(plans, fn, before)) != []
  {
    hide Bag, Refused;
    var p :| p in plans && p.node in down && s in p.shards;
    var i :| 0 <= i < |plans| && plans[i] == p;
    var round := Round(plans, fn, before);
    assert round[i] == Call(p.node, p.shards, Retry);
    RefusedAre(round, p);
    InBag(Refused(round), p, s);
  }

  lemma {:induction false} InBag(plans: seq<Plan>, p: Plan, s: Shard)
    requires p in plans && s in p.shards
    ensures s in Bag(plans)
  {
    var n := |plans| - 1;
    if plans[n] == p {
      assert s in multiset(p.shards);
    } else {
      assert plans == plans[..n] + [plans[n]];
      InBag(plans[..n], p, s);
    }
  }

  /** Planned again, a shard of node 0 goes to node 0. */
  lemma BackToZero(again: seq<Plan>, skips: set<nat>, plans: seq<Plan>, s: Shard)
    requires Replanned(again, skips, plans) && s in Bag(again) && 0 in s.owners
    ensures exists p :: p in plans && p.node == 0 && s in p.shards
  {
    hide Bag, PlannableOf, ShardsTo, ShardsOf, PlanOf, Economical;
    var remained: seq<Shard>, m: map<nat, seq<Shard>>, picks: seq<Assigned> :|
      multiset(remained) == Bag(again) && Explains(picks, m, 0, remained, skips) && Enumerates(plans, m);
    PlannableCount(remained, 0, skips, s);
    assert s in multiset(ShardsOf(picks));
    PickOf(picks, s);
    var i :| 0 <= i < |picks| && picks[i].shard == s;
    assert Permitted(picks[i], 0, skips);
    SentTo(picks, i);
    PlannedAs(m, picks, 0);
    assert Plan(0, m[0]) in plans;
  }

  lemma PlannedAs(m: map<nat, seq<Shard>>, picks: seq<Assigned>, n: nat)
    requires PlanOf(m, picks) && ShardsTo(picks, n) != []
    ensures n in m && m[n] == ShardsTo(picks, n)
  {
  }

  lemma PickOf(picks: seq<Assigned>, s: Shard)
    requires s in multiset(ShardsOf(picks))
    ensures exists i :: 0 <= i < |picks| && picks[i].shard == s
  {
    var i :| 0 <= i < |picks| && ShardsOf(picks)[i] == s;
  }

  lemma {:induction false} SentTo(picks: seq<Assigned>, i: nat)
    requires i < |picks|
    ensures picks[i].shard in ShardsTo(picks, picks[i].node)
  {
    var n := |picks| - 1;
    if i < n {
      SentTo(picks[..n], i);
    }
  }

  /**
   In every round of every run of the loop, a shard of node 0 is carried by a plan that is
   refused, if node 0 and the node of the plan are down: there is always a next round.
   */
  lemma {:induction false} ZeroOwnerIsAskedAgain(first: Plan, fn: QueryFn, down: set<nat>, rounds: seq<seq<Plan>>,
                                                 s: Shard, k: nat)
    requires Looping(first, fn, rounds) && Refuses(fn, down) && k < |rounds|
    requires s in first.shards && 0 in s.owners && 0 in down && first.node in down
    ensures Carried(rounds[k], down, s) && RefusedIn(rounds, fn, k) != []
    ensures k > 0 ==> exists p :: p in rounds[k] && p.node == 0 && s in p.shards
  {
    hide Refuses, Replanned, SkippedAfter, CallsOf, Bag, Refused, Round;
    if k == 0 {
      assert first in rounds[0];
    } else {
      ZeroOwnerIsAskedAgain(first, fn, down, rounds, s, k - 1);
      CarriedIsRefused(rounds[k - 1], fn, down, CallsOf(rounds, k - 1), s);
      assert Continues(rounds, fn, k - 1);
      BackToZero(RefusedIn(rounds, fn, k - 1), SkippedAfter(rounds, fn, k), rounds[k], s);
    }
    CarriedIsRefused(rounds[k], fn, down, CallsOf(rounds, k), s);
  }

  // ---------- such runs of any length ----------

  /** Some plan exists for any shards. */
  lemma {:induction false} PlanExists(shards: seq<Shard>, skips: set<nat>) returns (m: map<nat, seq<Shard>>, picks: seq<Assigned>)
    ensures Explains(picks, m, 0, shards, skips) && ShardsOf(picks) == PlannableOf(shards, 0, skips)
  {
    hide PlanOf, Permitted, Economical, Preferred;
    if shards == [] {
      m, picks := map[], [];
      EmptyPlan();
      NothingChosen(skips);
    } else {
      var n := |shards| - 1;
      m, picks := PlanExists(shards[..n], skips);
      if Plannable(shards[n], 0, skips) {
        var node := NodeExists(shards[n], NodesOf(picks), skips);
        var a := Assigned(shards[n], node);
        EconomicalGrows(picks, a, 0, skips);
        PlanGrows(m, picks, a);
        m := m[node := (if node in m then m[node] else []) + [shards[n]]];
        assert ShardsOf(picks + [a]) == ShardsOf(picks) + [shards[n]];
        picks := picks + [a];
      }
    }
  }

  lemma NothingChosen(skips: set<nat>)
    ensures Economical([], 0, skips)
  {
  }

  lemma NodeExists(s: Shard, chosen: set<nat>, skips: set<nat>) returns (node: nat)
    requires Plannable(s, 0, skips)
    ensures Permitted(Assigned(s, node), 0, skips) && Preferred(Assigned(s, node), chosen, 0, skips)
  {
    hide Allowed;
    if 0 in s.owners {
      node := 0;
    } else {
      var allowed := Allowed(s.owners, skips);
      var k := FirstIn(allowed, chosen);
      node := if k < |allowed| then allowed[k] else allowed[0];
      assert node in allowed;
    }
  }

  lemma {:induction false} ScheduleExists(m: map<nat, seq<Shard>>, left: set<nat>) returns (plans: seq<Plan>)
    requires left <= m.Keys
    ensures DistinctNodes(plans) && forall p: Plan :: p in plans <==> p.node in left && p.shards == m[p.node]
    decreases left
  {
    if left == {} {
      plans := [];
    } else {
      var n :| n in left;
      var rest := ScheduleExists(m, left - {n});
      plans := rest + [Plan(n, m[n])];
      forall i | 0 <= i < |rest| ensures rest[i].node != n {
        assert rest[i] in rest;
      }
    }
  }

  lemma ShardsExist(plans: seq<Plan>) returns (shards: seq<Shard>)
    ensures multiset(shards) == Bag(plans)
  {
    if plans == [] {
      shards := [];
    } else {
      var front := ShardsExist(plans[..|plans| - 1]);
      shards := front + plans[|plans| - 1].shards;
    }
  }

  lemma ReplanExists(again: seq<Plan>, skips: set<nat>) returns (plans: seq<Plan>)
    ensures Replanned(again, skips, plans)
  {
    hide Bag, Explains;
    var shards := ShardsExist(again);
    var m, picks := PlanExists(shards, skips);
    plans := ScheduleExists(m, m.Keys);
    assert Enumerates(plans, m);
  }

  lemma {:induction false} CallsKept(rounds: seq<seq<Plan>>, plans: seq<Plan>, k: nat)
    requires k <= |rounds|
    ensures CallsOf(rounds + [plans], k) == CallsOf(rounds, k)
  {
    if k > 0 {
      CallsKept(rounds, plans, k - 1);
    }
  }

  lemma RefusedKept(rounds: seq<seq<Plan>>, fn: QueryFn, plans: seq<Plan>, k: nat)
    requires k < |rounds|
    ensures RefusedIn(rounds + [plans], fn, k) == RefusedIn(rounds, fn, k)
  {
    hide CallsOf, Refused, Round;
    CallsKept(rounds, plans, k);
  }

  lemma {:induction false} SkippedKept(rounds: seq<seq<Plan>>, fn: QueryFn, plans: seq<Plan>, k: nat)
    requires k <= |rounds|
    ensures SkippedAfter(rounds + [plans], fn, k) == SkippedAfter(rounds, fn, k)
  {
    hide RefusedIn, NodesIn;
    if k > 0 {
      SkippedKept(rounds, fn, plans, k - 1);
      RefusedKept(rounds, fn, plans, k - 1);
    }
  }

  lemma LoopingMore(first: Plan, fn: QueryFn, rounds: seq<seq<Plan>>, plans: seq<Plan>)
    requires Looping(first, fn, rounds) && var k := |rounds| - 1;
             RefusedIn(rounds, fn, k) != [] && Replanned(RefusedIn(rounds, fn, k), SkippedAfter(rounds, fn, k + 1), plans)
    ensures Looping(first, fn, rounds + [plans])
  {
    hide RefusedIn, SkippedAfter, Replanned;
    var more := rounds + [plans];
    forall k | 0 <= k < |more| - 1 ensures Continues(more, fn, k) {
      RefusedKept(rounds, fn, plans, k);
      SkippedKept(rounds, fn, plans, k + 1);
      if k < |rounds| - 1 {
        assert Continues(rounds, fn, k);
      }
    }
  }

  /** For every number of rounds there is a run that has not ended by then. */
  lemma {:induction false} LoopNeedNotEnd(first: Plan, fn: QueryFn, down: set<nat>, s: Shard, k: nat)
    returns (rounds: seq<seq<Plan>>)
    requires Refuses(fn, down) && s in first.shards && 0 in s.owners && 0 in down && first.node in down
    ensures Looping(first, fn, rounds) && |rounds| == k + 1 && RefusedIn(rounds, fn, k) != []
  {
    hide Refuses, RefusedIn, SkippedAfter, Replanned, Carried;
    if k == 0 {
      rounds := [[first]];
    } else {
      var before := LoopNeedNotEnd(first, fn, down, s, k - 1);
      var plans := ReplanExists(RefusedIn(before, fn, k - 1), SkippedAfter(before, fn, k));
      LoopingMore(first, fn, before, plans);
      rounds := before + [plans];
    }
    ZeroOwnerIsAskedAgain(first, fn, down, rounds, s, k);
  }

  // ---------- and exactly when ----------

  lemma {:induction false} BagHas(plans: seq<Plan>, s: Shard)
    requires s in Bag(plans)
    ensures exists p :: p in plans && s in p.shards
  {
    var n := |plans| - 1;
    if s in multiset(plans[n].shards) {
      assert plans[n] in plans;
    } else {
      BagHas(plans[..n], s);
      var p :| p in plans[..n] && s in p.shards;
      assert p in plans;
    }
  }

  /** A plan of a later round carries shards that were refused before, and goes where it may. */
  lemma ReplannedPlan(again: seq<Plan>, skips: set<nat>, plans: seq<Plan>, p: Plan, s: Shard)
    requires Replanned(again, skips, plans) && p in plans && s in p.shards
    ensures s in Bag(again) && Permitted(Assigned(s, p.node), 0, skips)
  {
    hide Bag, PlannableOf, ShardsTo, ShardsOf, Economical, Permitted;
    var remained: seq<Shard>, m: map<nat, seq<Shard>>, picks: seq<Assigned> :|
      multiset(remained) == Bag(again) && Explains(picks, m, 0, remained, skips) && Enumerates(plans, m);
    SentWasPicked(picks, p.node, s);
    var i :| 0 <= i < |picks| && picks[i] == Assigned(s, p.node);
    assert Permitted(picks[i], 0, skips);
    PlannableCount(remained, 0, skips, s);
    assert s in multiset(ShardsOf(picks));
  }

  lemma ReplannedNotEmpty(again: seq<Plan>, skips: set<nat>, plans: seq<Plan>, p: Plan)
    requires Replanned(again, skips, plans) && p in plans
    ensures p.shards != []
  {
    hide Bag, PlannableOf, ShardsTo, ShardsOf, Economical, Permitted;
    var remained: seq<Shard>, m: map<nat, seq<Shard>>, picks: seq<Assigned> :|
      multiset(remained) == Bag(again) && Explains(picks, m, 0, remained, skips) && Enumerates(plans, m);
  }

  /** Every shard of every round is one that was asked for. */
  lemma {:induction false} OnlyAskedFor(first: Plan, fn: QueryFn, rounds: seq<seq<Plan>>, k: nat, p: Plan, s: Shard)
    requires Looping(first, fn, rounds) && k < |rounds| && p in rounds[k] && s in p.shards
    ensures s in first.shards
    decreases k
  {
    hide Replanned, SkippedAfter, Bag, Refused;
    if k > 0 {
      assert Continues(rounds, fn, k - 1);
      var again := RefusedIn(rounds, fn, k - 1);
      ReplannedPlan(again, SkippedAfter(rounds, fn, k), rounds[k], p, s);
      BagHas(again, s);
      var q :| q in again && s in q.shards;
      RefusedWasPlanned(rounds[k - 1], fn, CallsOf(rounds, k - 1), q);
      OnlyAskedFor(first, fn, rounds, k - 1, q, s);
    }
  }

  lemma RefusedWasPlanned(plans: seq<Plan>, fn: QueryFn, before: nat, p: Plan)
    requires p in Refused(Round(plans, fn, before))
    ensures p in plans && exists i: nat :: fn(i, p.node, p.shards) == Retry
  {
    hide Refused;
    var round := Round(plans, fn, before);
    RefusedAre(round, p);
    var i :| 0 <= i < |round| && round[i] == Call(p.node, p.shards, Retry);
    assert plans[i] == p && fn(before + i, p.node, p.shards) == Retry;
  }

  lemma RefusedIsDown(plans: seq<Plan>, fn: QueryFn, down: set<nat>, before: nat, p: Plan)
    requires p in Refused(Round(plans, fn, before)) && Refuses(fn, down)
    ensures p in plans && p.node in down
  {
    hide Refused, Round;
    RefusedWasPlanned(plans, fn, before, p);
  }

  /** What keeps the loop going: node 0 and the planned node refuse, and node 0 owns a shard of the plan. */
  ghost predicate Endless(first: Plan, down: set<nat>) {
    first.node in down && 0 in down && exists s :: s in first.shards && 0 in s.owners
  }

  /** Otherwise each round after the first with a refusal uses up an owner. */
  lemma OwnerUsed(first: Plan, fn: QueryFn, down: set<nat>, rounds: seq<seq<Plan>>, k: nat)
    requires Looping(first, fn, rounds) && Refuses(fn, down) && !Endless(first, down)
    requires 0 < k && k + 1 < |rounds|
    ensures exists n :: n in OwnersOf(first.shards) && n !in SkippedAfter(rounds, fn, k) && n in NodesIn(RefusedIn(rounds, fn, k))
  {
    hide Replanned, SkippedAfter, Bag, Refused, Refuses, CallsOf, Round, Endless, OwnersOf, Permitted;
    assert Continues(rounds, fn, k) && Continues(rounds, fn, k - 1) && Continues(rounds, fn, 0);
    var p := RefusedIn(rounds, fn, k)[0];
    assert p in RefusedIn(rounds, fn, k);
    RefusedIsDown(rounds[k], fn, down, CallsOf(rounds, k), p);
    var skips := SkippedAfter(rounds, fn, k);
    ReplannedNotEmpty(RefusedIn(rounds, fn, k - 1), skips, rounds[k], p);
    var s := p.shards[0];
    assert s in p.shards;
    ReplannedPlan(RefusedIn(rounds, fn, k - 1), skips, rounds[k], p, s);
    OnlyAskedFor(first, fn, rounds, k, p, s);
    FirstIsDown(first, fn, down, rounds);
    NewOwner(first, down, p.node, s, skips);
  }

  lemma FirstIsDown(first: Plan, fn: QueryFn, down: set<nat>, rounds: seq<seq<Plan>>)
    requires rounds != [] && rounds[0] == [first] && RefusedIn(rounds, fn, 0) != [] && Refuses(fn, down)
    ensures first.node in down
  {
    hide Refuses, Refused, Round;
    var p := RefusedIn(rounds, fn, 0)[0];
    RefusedIsDown(rounds[0], fn, down, CallsOf(rounds, 0), p);
  }

  lemma NewOwner(first: Plan, down: set<nat>, node: nat, s: Shard, skips: set<nat>)
    requires !Endless(first, down) && first.node in down && node in down && s in first.shards
    requires Permitted(Assigned(s, node), 0, skips)
    ensures node in OwnersOf(first.shards) && node !in skips
  {
  }

  lemma {:induction false} OwnersUsed(first: Plan, fn: QueryFn, down: set<nat>, rounds: seq<seq<Plan>>, k: nat)
    requires Looping(first, fn, rounds) && Refuses(fn, down) && !Endless(first, down) && 0 < k < |rounds|
    ensures |SkippedAfter(rounds, fn, k) * OwnersOf(first.shards)| >= k - 1
  {
    hide Looping, RefusedIn, Refuses, Endless, OwnersOf, NodesIn;
    if k > 1 {
      OwnersUsed(first, fn, down, rounds, k - 1);
      OwnerUsed(first, fn, down, rounds, k - 1);
      var owners := OwnersOf(first.shards);
      var n :| n in owners && n !in SkippedAfter(rounds, fn, k - 1) && n in NodesIn(RefusedIn(rounds, fn, k - 1));
      var a, b := SkippedAfter(rounds, fn, k - 1) * owners, SkippedAfter(rounds, fn, k) * owners;
      assert SkippedAfter(rounds, fn, k) == SkippedAfter(rounds, fn, k - 1) + NodesIn(RefusedIn(rounds, fn, k - 1));
      assert n in b && n !in a && a <= b;
      SmallerSet(a, b);
    }
  }

  lemma RoundsBounded(first: Plan, fn: QueryFn, down: set<nat>, rounds: seq<seq<Plan>>)
    requires Looping(first, fn, rounds) && Refuses(fn, down) && !Endless(first, down)
    ensures |rounds| <= 2 + |OwnersOf(first.shards)|
  {
    hide SkippedAfter, Refuses, Endless, OwnersOf, Continues;
    var k := |rounds| - 1;
    if k > 0 {
      OwnersUsed(first, fn, down, rounds, k);
      NotLarger(SkippedAfter(rounds, fn, k) * OwnersOf(first.shards), OwnersOf(first.shards));
    }
  }

  lemma NotLarger(a: set<nat>, b: set<nat>)
    requires a <= b
    ensures |a| <= |b|
  {
    assert b == a + (b - a);
  }

  /**
   With the nodes in `down` refusing, the loop has a bound on its rounds, two more than there
   are owners, if and only if it is not that case: the planned node and node 0 are down, and
   some shard of the plan has owner 0.
   */
  lemma BoundedExact(first: Plan, fn: QueryFn, down: set<nat>)
    requires Refuses(fn, down)
    ensures (forall rounds :: Looping(first, fn, rounds) ==> |rounds| <= 2 + |OwnersOf(first.shards)|) <==> !Endless(first, down)
  {
    hide Looping, Refuses, OwnersOf;
    if Endless(first, down) {
      var s :| s in first.shards && 0 in s.owners;
      var rounds := LoopNeedNotEnd(first, fn, down, s, 2 + |OwnersOf(first.shards)|);
    } else {
      forall rounds | Looping(first, fn, rounds) ensures |rounds| <= 2 + |OwnersOf(first.shards)| {
        RoundsBounded(first, fn, down, rounds);
      }
    }
  }
}
