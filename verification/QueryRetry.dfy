/**
 Running planned queries and moving refused shards to other owners
 (coordinator/cluster_planning.go). The query function is any function of the call and of
 how many calls came before it; the properties are about the trace of calls made to it.
 */
module QueryRetry {
  import opened Bytes
  import opened MetaModel
  import opened Planner

  /** A recovered panic leaves both the value and the error nil. */
  datatype Outcome = Answer(value: Option<nat>) | Retry | Failure | Panicked

  datatype Call = Call(node: nat, shards: seq<Shard>, outcome: Outcome)

  /** The query function, which may answer differently each time. */
  type QueryFn = (nat, nat, seq<Shard>) -> Outcome

  // ---------- what a trace says ----------

  /** Shards of the calls that were not refused with the retry error: never sent again. */
  ghost function Settled(calls: seq<Call>): (b: multiset<Shard>) {
    if calls == [] then multiset{}
    else
      Settled(calls[..|calls| - 1]) + Kept(calls[|calls| - 1])
  }

  /** The values answered, in call order. */
  ghost function Values(calls: seq<Call>): (r: seq<nat>) {
    if calls == [] then []
    else
      var o := calls[|calls| - 1].outcome;
      Values(calls[..|calls| - 1]) + if o.Answer? && o.value.Some? then [o.value.value] else []
  }

  ghost function Refusers(calls: seq<Call>): (r: set<nat>) {
    set c | c in calls && c.outcome == Retry :: c.node
  }

  ghost predicate Failed(calls: seq<Call>) {
    exists c :: c in calls && c.outcome == Failure
  }

  ghost function Kept(c: Call): (b: multiset<Shard>) {
    if c.outcome == Retry then multiset{} else multiset(c.shards)
  }

  lemma SettledSnoc(calls: seq<Call>, c: Call)
    ensures Settled(calls + [c]) == Settled(calls) + Kept(c)
  {
    assert (calls + [c])[..|calls|] == calls;
  }

  lemma {:induction false} SettledAppend(a: seq<Call>, b: seq<Call>)
    ensures Settled(a + b) == Settled(a) + Settled(b)
  {
    hide Settled, Kept;
    if b == [] {
      assert a + b == a;
      NothingSettled();
    } else {
      var k := |b| - 1;
      SettledAppend(a, b[..k]);
      assert a + b == (a + b[..k]) + [b[k]];
      SettledSnoc(a + b[..k], b[k]);
      SettledSnoc(b[..k], b[k]);
      assert b == b[..k] + [b[k]];
    }
  }

  lemma NothingSettled()
    ensures Settled([]) == multiset{}
  {
  }

  lemma {:induction false} ValuesAppend(a: seq<Call>, b: seq<Call>)
    ensures Values(a + b) == Values(a) + Values(b)
  {
    if b == [] {
      assert a + b == a;
    } else {
      var k := |b| - 1;
      ValuesAppend(a, b[..k]);
      assert (a + b)[..|a + b| - 1] == a + b[..k];
    }
  }

  lemma RefusersAppend(a: seq<Call>, b: seq<Call>)
    ensures Refusers(a + b) == Refusers(a) + Refusers(b)
  {
  }

  // ---------- one round ----------

  /** The calls of a round are its plans, in order. */
  ghost predicate Ran(plans: seq<Plan>, round: seq<Call>) {
    |round| == |plans| &&
    forall i :: 0 <= i < |round| ==> round[i].node == plans[i].node && round[i].shards == plans[i].shards
  }

  /** The plans that were refused, in order. */
  ghost function Refused(round: seq<Call>): (r: seq<Plan>) {
    if round == [] then []
    else
      var c := round[|round| - 1];
      Refused(round[..|round| - 1]) + if c.outcome == Retry then [Plan(c.node, c.shards)] else []
  }

  lemma {:induction false} RefusedAre(round: seq<Call>, p: Plan)
    ensures p in Refused(round) <==> Call(p.node, p.shards, Retry) in round
  {
    if round != [] {
      var k := |round| - 1;
      RefusedAre(round[..k], p);
      assert round == round[..k] + [round[k]];
    }
  }

  /** A round settles what it does not hand back. */
  lemma {:induction false} RoundConserves(plans: seq<Plan>, round: seq<Call>)
    requires Ran(plans, round)
    ensures Settled(round) + Bag(Refused(round)) == Bag(plans)
  {
    if round != [] {
      var k := |round| - 1;
      RoundConserves(plans[..k], round[..k]);
      var c := round[k];
      BagSnoc(Refused(round[..k]), Plan(c.node, c.shards));
      assert Refused(round[..k]) + [] == Refused(round[..k]);
    }
  }

  /** The calls of a round when `before` calls were made already. */
  ghost function Round(plans: seq<Plan>, fn: QueryFn, before: nat): (r: seq<Call>)
    ensures Ran(plans, r)
  {
    seq(|plans|, i requires 0 <= i < |plans| =>
      Call(plans[i].node, plans[i].shards, fn(before + i, plans[i].node, plans[i].shards)))
  }

  method ExecutePlans(plans: seq<Plan>, fn: QueryFn, before: nat)
    returns (result: seq<nat>, again: seq<Plan>, failed: bool)
    ensures result == Values(Round(plans, fn, before))
    ensures again == Refused(Round(plans, fn, before))
    ensures failed == Failed(Round(plans, fn, before))
  {
    hide Values, Refused, Failed;
    NoCalls();
    result, again, failed := [], [], false;
    ghost var round := [];
    for i := 0 to |plans|
      invariant round == Round(plans, fn, before)[..i]
      invariant result == Values(round) && again == Refused(round) && failed == Failed(round)
    {
      var o := fn(before + i, plans[i].node, plans[i].shards);
      ghost var c := Call(plans[i].node, plans[i].shards, o);
      RoundSnoc(round, c);
      round := round + [c];
      match o
      case Answer(Some(v)) => result := result + [v];
      case Retry => again := again + [plans[i]];
      case Failure => failed := true;
      case _ =>
    }
    assert round == Round(plans, fn, before);
  }

  lemma NoCalls()
    ensures Values([]) == [] && Refused([]) == [] && !Failed([])
  {
  }

  lemma RoundSnoc(round: seq<Call>, c: Call)
    ensures Values(round + [c])
         == Values(round) + if c.outcome.Answer? && c.outcome.value.Some? then [c.outcome.value.value] else []
    ensures Refused(round + [c]) == Refused(round) + if c.outcome == Retry then [Plan(c.node, c.shards)] else []
    ensures Failed(round + [c]) == (Failed(round) || c.outcome == Failure)
  {
    assert (round + [c])[..|round|] == round;
    FailedAppend(round, [c]);
    assert c in [c];
  }

  lemma FailedAppend(a: seq<Call>, b: seq<Call>)
    ensures Failed(a + b) == (Failed(a) || Failed(b))
  {
    assert forall d :: d in a + b <==> d in a || d in b;
  }

  // ---------- the retry loop ----------

  ghost function OwnersOf(shards: seq<Shard>): (r: set<nat>) {
    set s, o | s in shards && o in s.owners :: o
  }

  /**
   Discipline of a whole run for one planned node: it starts with the plan itself, later
   calls carry shards and go only to owners of all of them, no node is called after it
   refused, and what was settled before a call plus what the call carries never exceeds
   the shards asked for.
   */
  ghost predicate Disciplined(first: Plan, calls: seq<Call>) {
    && (calls != [] ==> calls[0].node == first.node && calls[0].shards == first.shards)
    && (forall j, s :: 1 <= j < |calls| && s in calls[j].shards ==> calls[j].node in s.owners)
    && (forall j :: 1 <= j < |calls| ==> calls[j].shards != [])
    && (forall i, j :: 0 <= i < j < |calls| && calls[i].outcome == Retry ==> calls[i].node != calls[j].node)
    && (forall j :: 0 <= j < |calls| ==> WithinBudget(first, calls, j))
  }

  ghost predicate WithinBudget(first: Plan, calls: seq<Call>, j: nat)
    requires j < |calls|
  {
    Settled(calls[..j]) + multiset(calls[j].shards) <= multiset(first.shards)
  }

  /** The plans of the next round. */
  ghost predicate Next(first: Plan, calls: seq<Call>, plans: seq<Plan>) {
    && DistinctNodes(plans)
    && (calls == [] ==> plans == [first])
    && (calls != [] ==> forall p :: p in plans ==>
          p.node !in Refusers(calls) && p.shards != [] && forall s :: s in p.shards ==> p.node in s.owners && s in first.shards)
  }

  /** What the run owes: settled, still planned and given up make up what was asked for. */
  ghost predicate Balanced(first: Plan, calls: seq<Call>, plans: seq<Plan>, lost: multiset<Shard>) {
    && Settled(calls) + Bag(plans) + lost == multiset(first.shards)
    && forall s, o :: s in lost && o in s.owners ==> o in Refusers(calls)
  }

  lemma {:induction false} BagPrefix(plans: seq<Plan>, k: nat)
    requires k <= |plans|
    ensures Bag(plans[..k]) <= Bag(plans)
  {
    if k < |plans| {
      var n := |plans| - 1;
      BagPrefix(plans[..n], k);
      assert plans[..n][..k] == plans[..k];
    } else {
      assert plans[..k] == plans;
    }
  }

  lemma RoundPrefix(plans: seq<Plan>, round: seq<Call>, k: nat)
    requires Ran(plans, round) && k < |round|
    ensures Settled(round[..k]) + multiset(round[k].shards) <= Bag(plans)
  {
    hide Settled, Bag, Refused;
    RoundConserves(plans[..k], round[..k]);
    BagSnoc(plans[..k], plans[k]);
    assert plans[..k + 1] == plans[..k] + [plans[k]];
    BagPrefix(plans, k + 1);
  }

  lemma BudgetKept(first: Plan, calls: seq<Call>, plans: seq<Plan>, lost: multiset<Shard>, round: seq<Call>, j: nat)
    requires forall i :: 0 <= i < |calls| ==> WithinBudget(first, calls, i)
    requires Balanced(first, calls, plans, lost) && Ran(plans, round)
    requires j < |calls + round|
    ensures WithinBudget(first, calls + round, j)
  {
    hide Settled, Bag;
    if j < |calls| {
      assert WithinBudget(first, calls, j);
      assert (calls + round)[..j] == calls[..j];
    } else {
      var k := j - |calls|;
      assert (calls + round)[..j] == calls + round[..k];
      SettledAppend(calls, round[..k]);
      RoundPrefix(plans, round, k);
    }
  }

  lemma RefusedIn(calls: seq<Call>, i: nat)
    requires i < |calls| && calls[i].outcome == Retry
    ensures calls[i].node in Refusers(calls)
  {
  }

  lemma NoCallAfterRefusal(first: Plan, calls: seq<Call>, plans: seq<Plan>, round: seq<Call>, i: nat, j: nat)
    requires Disciplined(first, calls) && Next(first, calls, plans) && Ran(plans, round)
    requires i < j < |calls + round| && (calls + round)[i].outcome == Retry
    ensures (calls + round)[i].node != (calls + round)[j].node
  {
    hide Settled, Bag, Refusers;
    if i < |calls| && j >= |calls| {
      RefusedIn(calls, i);
      assert plans[j - |calls|] in plans;
    }
  }

  lemma DisciplineKept(first: Plan, calls: seq<Call>, plans: seq<Plan>, lost: multiset<Shard>, round: seq<Call>)
    requires Disciplined(first, calls) && Next(first, calls, plans) && Balanced(first, calls, plans, lost)
    requires Ran(plans, round)
    ensures Disciplined(first, calls + round)
  {
    hide Settled, Bag, Refusers, WithinBudget;
    var all := calls + round;
    forall j | 0 <= j < |all| ensures WithinBudget(first, all, j) {
      BudgetKept(first, calls, plans, lost, round, j);
    }
    forall i, j | 0 <= i < j < |all| && all[i].outcome == Retry ensures all[i].node != all[j].node {
      NoCallAfterRefusal(first, calls, plans, round, i, j);
    }
    forall j | 1 <= j < |all| ensures all[j].shards != [] && forall s :: s in all[j].shards ==> all[j].node in s.owners {
      if j >= |calls| {
        assert plans[j - |calls|] in plans;
      }
    }
  }

  /** `shardsRemained`, and the nodes to skip from now on. */
  method Remaining(again: seq<Plan>, skip: set<nat>) returns (shards: seq<Shard>, skips: set<nat>)
    ensures multiset(shards) == Bag(again)
    ensures skips == skip + NodesIn(again)
  {
    hide Bag, NodesIn;
    shards, skips := [], skip;
    assert again[..0] == [];
    NoPlans();
    NoNodes();
    for i := 0 to |again|
      invariant multiset(shards) == Bag(again[..i])
      invariant skips == skip + NodesIn(again[..i])
    {
      assert again[..i + 1] == again[..i] + [again[i]];
      BagSnoc(again[..i], again[i]);
      NodesSnoc(again[..i], again[i]);
      shards := shards + again[i].shards;
      skips := skips + {again[i].node};
    }
    assert again[..|again|] == again;
  }

  /** Shards that cannot be planned any more: every owner refused. */
  lemma GivenUp(remained: seq<Shard>, skips: set<nat>, gone: multiset<Shard>)
    requires gone == multiset(remained) - multiset(PlannableOf(remained, 0, skips))
    ensures multiset(PlannableOf(remained, 0, skips)) + gone == multiset(remained)
    ensures forall s, o :: s in gone && o in s.owners ==> o in skips
  {
    hide PlannableOf, Allowed;
    forall s
      ensures multiset(PlannableOf(remained, 0, skips))[s] <= multiset(remained)[s]
      ensures s in gone ==> !Plannable(s, 0, skips)
    {
      PlannableCount(remained, 0, skips, s);
    }
    forall s, o | s in gone && o in s.owners ensures o in skips {
      assert o !in Allowed(s.owners, skips);
    }
  }

  lemma {:induction false} SentWasPicked(picks: seq<Assigned>, n: nat, s: Shard)
    requires s in ShardsTo(picks, n)
    ensures Assigned(s, n) in picks && s in ShardsOf(picks)
  {
    var k := |picks| - 1;
    if picks[k] == Assigned(s, n) {
      assert ShardsOf(picks)[k] == s;
    } else {
      SentWasPicked(picks[..k], n, s);
      var i :| 0 <= i < k && picks[..k][i] == Assigned(s, n);
      assert ShardsOf(picks)[i] == s;
    }
  }

  /** The new plans go to owners that did not refuse. */
  lemma ReplannedWell(first: Plan, calls: seq<Call>, m: map<nat, seq<Shard>>, picks: seq<Assigned>, plans: seq<Plan>)
    requires PlanOf(m, picks) && calls != []
    requires forall i :: 0 <= i < |picks| ==> Permitted(picks[i], 0, Refusers(calls))
    requires multiset(ShardsOf(picks)) <= multiset(first.shards)
    requires forall s :: s in first.shards ==> 0 !in s.owners
    requires Enumerates(plans, m)
    ensures Next(first, calls, plans)
  {
    hide Refusers, ShardsTo, ShardsOf;
    forall p, s | p in plans && s in p.shards
      ensures p.node !in Refusers(calls) && p.node in s.owners && s in first.shards
    {
      SentWasPicked(picks, p.node, s);
      assert s in multiset(ShardsOf(picks));
    }
    forall p | p in plans ensures p.shards != [] && p.node !in Refusers(calls) {
      assert p.shards == ShardsTo(picks, p.node) && p.shards != [];
      SentWasPicked(picks, p.node, p.shards[0]);
    }
  }

  /** `plans` is one way to plan the shards of `again` anew without the nodes in `skips`. */
  ghost predicate Replanned(again: seq<Plan>, skips: set<nat>, plans: seq<Plan>) {
    exists remained: seq<Shard>, m: map<nat, seq<Shard>>, picks: seq<Assigned> ::
      multiset(remained) == Bag(again) && Explains(picks, m, 0, remained, skips) && Enumerates(plans, m)
  }

  /** One pass of replanning, after a round was recorded in `calls`. */
  method Replan(again: seq<Plan>, skip: set<nat>, ghost first: Plan, ghost calls: seq<Call>, ghost lost: multiset<Shard>)
    returns (plans: seq<Plan>, skips: set<nat>)
    requires calls != [] && Refusers(calls) == skip + NodesIn(again)
    requires Balanced(first, calls, again, lost)
    requires forall s :: s in first.shards ==> 0 !in s.owners
    ensures skips == Refusers(calls) && Replanned(again, skips, plans)
    ensures Next(first, calls, plans) && exists more :: Balanced(first, calls, plans, more)
  {
    hide Refusers, Settled, Bag, PlanOf, Permitted, ShardsOf, PlannableOf, Enumerates, Next, Economical;
    var remained;
    remained, skips := Remaining(again, skip);
    var m := PlanNodes(0, remained, skips);
    ghost var picks :| Explains(picks, m, 0, remained, skips);
    plans := Schedule(m);
    EnumerationBag(plans, m, picks);
    ghost var gone := multiset(remained) - multiset(PlannableOf(remained, 0, skips));
    GivenUp(remained, skips, gone);
    ReplannedWell(first, calls, m, picks, plans);
    assert Balanced(first, calls, plans, lost + gone);
  }

  /** Every further round with refusals uses up an owner. */
  lemma OwnerUsedUp(first: Plan, calls: seq<Call>, plans: seq<Plan>, round: seq<Call>)
    requires Next(first, calls, plans) && calls != [] && Ran(plans, round) && Refused(round) != []
    ensures OwnersOf(first.shards) - Refusers(calls + round) < OwnersOf(first.shards) - Refusers(calls)
  {
    hide Refused;
    var p := Refused(round)[0];
    RefusedAre(round, p);
    var i :| 0 <= i < |round| && round[i] == Call(p.node, p.shards, Retry);
    assert plans[i] in plans && plans[i] == p;
    var s := p.shards[0];
    assert s in p.shards && s in first.shards && p.node in s.owners;
    assert p.node in OwnersOf(first.shards) - Refusers(calls);
    assert (calls + round)[|calls| + i] == round[i];
    RefusedIn(calls + round, |calls| + i);
    RefusersAppend(calls, round);
  }

  lemma SmallerSet(a: set<nat>, b: set<nat>)
    requires a < b
    ensures |a| < |b|
  {
    assert b == a + (b - a);
    var x :| x in b - a;
    assert |b| == |a| + |b - a|;
  }

  /** A plan remains only while some owner has not refused. */
  lemma OwnerLeft(first: Plan, calls: seq<Call>, plans: seq<Plan>)
    requires Next(first, calls, plans) && calls != [] && plans != []
    ensures OwnersOf(first.shards) - Refusers(calls) != {}
  {
    hide Refusers;
    var p := plans[0];
    assert p in plans;
    var s := p.shards[0];
    assert s in p.shards;
    assert p.node in OwnersOf(first.shards) - Refusers(calls);
  }

  lemma RefusersOfRound(round: seq<Call>)
    ensures Refusers(round) == NodesIn(Refused(round))
  {
    hide Refused;
    forall n ensures n in Refusers(round) <==> n in NodesIn(Refused(round)) {
      if n in Refusers(round) {
        var c :| c in round && c.outcome == Retry && c.node == n;
        RefusedAre(round, Plan(c.node, c.shards));
      }
      if p :| p in Refused(round) && p.node == n {
        RefusedAre(round, p);
      }
    }
  }

  lemma RoundBalances(first: Plan, calls: seq<Call>, plans: seq<Plan>, lost: multiset<Shard>, round: seq<Call>)
    requires Balanced(first, calls, plans, lost) && Ran(plans, round)
    ensures Balanced(first, calls + round, Refused(round), lost)
  {
    hide Settled, Bag, Refusers, Refused, Ran;
    SettledAppend(calls, round);
    RoundConserves(plans, round);
    RefusersAppend(calls, round);
  }

  /** The outcomes in the trace are the answers of the query function. */
  ghost predicate Heard(calls: seq<Call>, fn: QueryFn) {
    forall i :: 0 <= i < |calls| ==> calls[i].outcome == fn(i, calls[i].node, calls[i].shards)
  }

  lemma HeardAppend(calls: seq<Call>, plans: seq<Plan>, fn: QueryFn)
    requires Heard(calls, fn)
    ensures Heard(calls + Round(plans, fn, |calls|), fn)
  {
  }

  /** How a run for one plan ends. */
  ghost predicate Finished(first: Plan, calls: seq<Call>, lost: multiset<Shard>) {
    && calls != []
    && Disciplined(first, calls)
    && Balanced(first, calls, [], lost)
  }

  /** A finished run of the query function with this result. */
  ghost predicate Ended(first: Plan, fn: QueryFn, calls: seq<Call>, lost: multiset<Shard>, result: seq<nat>, failed: bool) {
    Finished(first, calls, lost) && Heard(calls, fn) && result == Values(calls) && failed == Failed(calls)
  }

  /**
   `executePlanWithRetry`: it ends within one round more than there are owners; every shard
   is settled exactly once or given up after all its owners refused.
   */
  method ExecutePlanWithRetry(node: nat, shards: seq<Shard>, fn: QueryFn)
    returns (result: seq<nat>, failed: bool, rounds: nat)
    requires forall s :: s in shards ==> 0 !in s.owners
    ensures exists calls, lost :: Ended(Plan(node, shards), fn, calls, lost, result, failed)
    ensures rounds <= 1 + |OwnersOf(shards)|
  {
    hide Refusers, Settled, Bag, Ran, Round, Disciplined, Next, Balanced, OwnersOf, Refused, Values, Failed, Heard;
    var first := Plan(node, shards);
    var plans, skip := [first], {};
    var asked := 0;
    result, failed, rounds := [], false, 0;
    ghost var calls: seq<Call>, lost: multiset<Shard> := [], multiset{};
    Begin(first, fn);
    while plans != []
      invariant Disciplined(first, calls) && Next(first, calls, plans) && Balanced(first, calls, plans, lost)
      invariant Heard(calls, fn) && asked == |calls|
      invariant skip == Refusers(calls)
      invariant calls == [] ==> rounds == 0 && plans != []
      invariant calls != [] ==> rounds >= 1
      invariant calls != [] && plans != [] ==> rounds + |OwnersOf(shards) - Refusers(calls)| <= 1 + |OwnersOf(shards)|
      invariant rounds <= 1 + |OwnersOf(shards)|
      invariant result == Values(calls) && failed == Failed(calls)
      decreases if calls == [] then 1 else 0, |OwnersOf(shards) - Refusers(calls)|, |plans|
    {
      var arr, again, bad := ExecutePlans(plans, fn, asked);
      ghost var round := Round(plans, fn, asked);
      ValuesAppend(calls, round);
      FailedAppend(calls, round);
      HeardAppend(calls, plans, fn);
      result, failed := result + arr, failed || bad;
      DisciplineKept(first, calls, plans, lost, round);
      RoundBalances(first, calls, plans, lost, round);
      RoundsBound(first, calls, plans, round, rounds);
      RefusersAppend(calls, round);
      RefusersOfRound(round);
      RoundLength(plans, round);
      calls, asked, rounds := calls + round, asked + |plans|, rounds + 1;
      if again != [] {
        plans, skip := Replan(again, skip, first, calls, lost);
        lost :| Balanced(first, calls, plans, lost);
      } else {
        plans := [];
        NothingNext(first, calls);
      }
    }
    assert Ended(first, fn, calls, lost, result, failed);
  }

  lemma RoundLength(plans: seq<Plan>, round: seq<Call>)
    requires Ran(plans, round)
    ensures |round| == |plans|
  {
  }

  lemma Begin(first: Plan, fn: QueryFn)
    ensures Heard([], fn)
    ensures Disciplined(first, []) && Next(first, [], [first]) && Balanced(first, [], [first], multiset{})
    ensures Refusers([]) == {} && Values([]) == [] && !Failed([])
  {
    BagSnoc([], first);
    assert [] + [first] == [first];
  }

  lemma NothingNext(first: Plan, calls: seq<Call>)
    requires calls != []
    ensures Next(first, calls, [])
  {
  }

  lemma RoundsBound(first: Plan, calls: seq<Call>, plans: seq<Plan>, round: seq<Call>, rounds: nat)
    requires Next(first, calls, plans) && Ran(plans, round) && plans != []
    requires calls == [] ==> rounds == 0
    requires calls != [] ==> rounds + |OwnersOf(first.shards) - Refusers(calls)| <= 1 + |OwnersOf(first.shards)|
    ensures round != [] && rounds + 1 <= 1 + |OwnersOf(first.shards)|
    ensures Refused(round) != [] ==>
      rounds + 1 + |OwnersOf(first.shards) - Refusers(calls + round)| <= 1 + |OwnersOf(first.shards)|
    ensures Refused(round) != [] && calls != [] ==>
      |OwnersOf(first.shards) - Refusers(calls + round)| < |OwnersOf(first.shards) - Refusers(calls)|
  {
    hide Refusers, Refused, OwnersOf, Next;
    var owners := OwnersOf(first.shards);
    if calls != [] {
      OwnerLeft(first, calls, plans);
      if Refused(round) != [] {
        OwnerUsedUp(first, calls, plans, round);
        SmallerSet(owners - Refusers(calls + round), owners - Refusers(calls));
      }
    } else if owners - Refusers(calls + round) != owners {
      SmallerSet(owners - Refusers(calls + round), owners);
    }
  }

  // ---------- what follows for each shard ----------

  ghost predicate Unique(shards: seq<Shard>) {
    forall s :: multiset(shards)[s] <= 1
  }

  lemma {:induction false} SettledHas(calls: seq<Call>, s: Shard)
    ensures s in Settled(calls) <==> exists c :: c in calls && c.outcome != Retry && s in c.shards
  {
    if calls != [] {
      var k := |calls| - 1;
      SettledHas(calls[..k], s);
      assert calls == calls[..k] + [calls[k]];
      assert forall c :: c in calls <==> c in calls[..k] || c == calls[k];
    }
  }

  /** No shard goes to the same node twice, and none is settled twice. */
  lemma OnceEach(first: Plan, calls: seq<Call>, lost: multiset<Shard>, i: nat, j: nat, s: Shard)
    requires Finished(first, calls, lost) && Unique(first.shards)
    requires i < j < |calls| && s in calls[i].shards && s in calls[j].shards
    ensures calls[i].outcome == Retry && calls[i].node != calls[j].node
  {
    hide Settled, Balanced;
    if calls[i].outcome != Retry {
      CountedTwice(first, calls, i, j, s);
    }
  }

  lemma CountedTwice(first: Plan, calls: seq<Call>, i: nat, j: nat, s: Shard)
    requires i < j < |calls| && WithinBudget(first, calls, j)
    requires calls[i].outcome != Retry && s in calls[i].shards && s in calls[j].shards
    ensures multiset(first.shards)[s] >= 2
  {
    hide Settled;
    assert calls[..j][i] == calls[i];
    SettledHas(calls[..j], s);
    assert s in multiset(calls[j].shards);
    assert (Settled(calls[..j]) + multiset(calls[j].shards))[s] >= 2;
  }

  /** A shard is given up exactly when every call that carried it was refused; then every owner refused. */
  lemma LostExact(first: Plan, calls: seq<Call>, lost: multiset<Shard>, s: Shard)
    requires Finished(first, calls, lost) && Unique(first.shards) && s in first.shards
    ensures s in lost <==> forall c :: c in calls && s in c.shards ==> c.outcome == Retry
    ensures s in lost ==> forall o :: o in s.owners ==> o in Refusers(calls)
  {
    hide Settled, Disciplined, Refusers;
    SettledHas(calls, s);
    assert multiset(first.shards)[s] == 1;
  }

  /** The values of a trace are exactly those that calls answered, each as often as it was. */
  lemma {:induction false} ValuesAre(calls: seq<Call>, v: nat)
    ensures multiset(Values(calls))[v] == multiset(Outcomes(calls))[Answer(Some(v))]
  {
    hide Values, Refused, Failed, Outcomes;
    if calls == [] {
      NoCalls();
      NoOutcomes();
    } else {
      var k := |calls| - 1;
      ValuesAre(calls[..k], v);
      assert calls == calls[..k] + [calls[k]];
      ValuesSnoc(calls[..k], calls[k], v);
    }
  }

  lemma NoOutcomes()
    ensures Outcomes([]) == []
  {
  }

  lemma ValuesSnoc(calls: seq<Call>, c: Call, v: nat)
    ensures multiset(Values(calls + [c]))[v] == multiset(Values(calls))[v] + if c.outcome == Answer(Some(v)) then 1 else 0
    ensures multiset(Outcomes(calls + [c]))[Answer(Some(v))]
         == multiset(Outcomes(calls))[Answer(Some(v))] + if c.outcome == Answer(Some(v)) then 1 else 0
  {
    hide Values, Refused, Failed;
    RoundSnoc(calls, c);
    assert Outcomes(calls + [c]) == Outcomes(calls) + [c.outcome];
  }

  ghost function Outcomes(calls: seq<Call>): (r: seq<Outcome>)
    ensures |r| == |calls|
  {
    seq(|calls|, i requires 0 <= i < |calls| => calls[i].outcome)
  }

  /**
   Every shard that is not given up is carried by exactly one call that was not refused; if that
   call answered with a value the value is in the result, and if it failed so does the query.
   */
  lemma AnswerIsReturned(first: Plan, fn: QueryFn, calls: seq<Call>, lost: multiset<Shard>,
                         result: seq<nat>, failed: bool, s: Shard)
    requires Ended(first, fn, calls, lost, result, failed) && Unique(first.shards) && s in first.shards && s !in lost
    ensures exists i :: 0 <= i < |calls| && s in calls[i].shards && calls[i].outcome != Retry
    ensures forall i, j :: 0 <= i < j < |calls| && s in calls[i].shards && s in calls[j].shards ==> calls[i].outcome == Retry
    ensures forall i, v :: 0 <= i < |calls| && calls[i].outcome == Answer(Some(v)) ==> v in result
    ensures failed <==> exists i :: 0 <= i < |calls| && calls[i].outcome == Failure
  {
    hide Settled, Values, Balanced, Disciplined, Refusers;
    LostExact(first, calls, lost, s);
    var c :| c in calls && s in c.shards && c.outcome != Retry;
    var i :| 0 <= i < |calls| && calls[i] == c;
    forall i, j | 0 <= i < j < |calls| && s in calls[i].shards && s in calls[j].shards ensures calls[i].outcome == Retry {
      OnceEach(first, calls, lost, i, j, s);
    }
    forall i, v | 0 <= i < |calls| && calls[i].outcome == Answer(Some(v)) ensures v in result {
      ValuesAre(calls, v);
      assert Outcomes(calls)[i] == Answer(Some(v));
      assert Answer(Some(v)) in multiset(Outcomes(calls));
      assert v in multiset(result);
    }
    if failed {
      var d :| d in calls && d.outcome == Failure;
      var j :| 0 <= j < |calls| && calls[j] == d;
    }
    if j :| 0 <= j < |calls| && calls[j].outcome == Failure {
      assert calls[j] in calls;
    }
  }

  /** The nodes in `down` refuse, the others do not. */
  ghost predicate Refuses(fn: QueryFn, down: set<nat>) {
    forall i: nat, n: nat, ss :: fn(i, n, ss) == Retry <==> n in down
  }

  /** Refusing takes the node of the plan and every owner. */
  predicate OutOfReach(first: Plan, s: Shard, down: set<nat>) {
    first.node in down && forall o :: o in s.owners ==> o in down
  }

  lemma HeardAt(calls: seq<Call>, fn: QueryFn, down: set<nat>, i: nat)
    requires Heard(calls, fn) && Refuses(fn, down) && i < |calls|
    ensures calls[i].outcome == Retry <==> calls[i].node in down
  {
  }

  lemma {:induction false} NothingHeard(calls: seq<Call>, s: Shard)
    requires forall i :: 0 <= i < |calls| && s in calls[i].shards ==> calls[i].outcome == Retry
    ensures Settled(calls)[s] == 0
  {
    if calls != [] {
      NothingHeard(calls[..|calls| - 1], s);
    }
  }

  lemma {:induction false} FirstSettles(calls: seq<Call>)
    requires calls != [] && calls[0].outcome != Retry
    ensures multiset(calls[0].shards) <= Settled(calls)
  {
    if |calls| > 1 {
      FirstSettles(calls[..|calls| - 1]);
    }
  }

  lemma OnlyDownRefused(calls: seq<Call>, fn: QueryFn, down: set<nat>)
    requires Heard(calls, fn) && Refuses(fn, down)
    ensures Refusers(calls) <= down
  {
    forall n | n in Refusers(calls) ensures n in down {
      var c :| c in calls && c.outcome == Retry && c.node == n;
      var i :| 0 <= i < |calls| && calls[i] == c;
      HeardAt(calls, fn, down, i);
    }
  }

  lemma LostCount(first: Plan, fn: QueryFn, down: set<nat>, calls: seq<Call>, lost: multiset<Shard>, s: Shard)
    requires Finished(first, calls, lost) && Heard(calls, fn) && Refuses(fn, down)
    ensures lost[s] == if OutOfReach(first, s, down) then multiset(first.shards)[s] else 0
  {
    hide Settled, Heard, Refusers, Refuses;
    NoPlans();
    assert (Settled(calls) + lost)[s] == multiset(first.shards)[s];
    if OutOfReach(first, s, down) {
      forall i | 0 <= i < |calls| && s in calls[i].shards ensures calls[i].outcome == Retry {
        HeardAt(calls, fn, down, i);
      }
      NothingHeard(calls, s);
    } else if first.node in down {
      OnlyDownRefused(calls, fn, down);
    } else {
      HeardAt(calls, fn, down, 0);
      FirstSettles(calls);
    }
  }

  /**
   Told before the call: with the nodes in `down` refusing, a shard is given up, as often as
   it was asked for, if and only if the node of the plan and every owner are down. Unless some
   call fails otherwise there is no error, and with every shard out of reach no answer either.
   */
  lemma LossExact(first: Plan, fn: QueryFn, down: set<nat>, calls: seq<Call>, lost: multiset<Shard>,
                  result: seq<nat>, failed: bool)
    requires Ended(first, fn, calls, lost, result, failed) && Refuses(fn, down)
    ensures forall s :: lost[s] == if OutOfReach(first, s, down) then multiset(first.shards)[s] else 0
    ensures (forall i: nat, n: nat, ss :: fn(i, n, ss) != Failure) ==> !failed
    ensures first.node in down && OwnersOf(first.shards) <= down ==> lost == multiset(first.shards) && result == [] && !failed
  {
    hide Settled, Refusers, Refuses, Values, Finished, OutOfReach, OwnersOf;
    forall s ensures lost[s] == if OutOfReach(first, s, down) then multiset(first.shards)[s] else 0 {
      LostCount(first, fn, down, calls, lost, s);
    }
    if first.node in down && OwnersOf(first.shards) <= down {
      forall s | s in first.shards ensures OutOfReach(first, s, down) {
        AllReachedThrough(first, s, down);
      }
      assert lost == multiset(first.shards);
      SilentCalls(first, fn, down, calls, lost);
    }
  }

  lemma AllReachedThrough(first: Plan, s: Shard, down: set<nat>)
    requires s in first.shards && first.node in down && OwnersOf(first.shards) <= down
    ensures OutOfReach(first, s, down)
  {
    forall o | o in s.owners ensures o in down {
      assert o in OwnersOf(first.shards);
    }
  }

  /** When nothing is settled every call that carried a shard was refused, and so was the first. */
  lemma SilentCalls(first: Plan, fn: QueryFn, down: set<nat>, calls: seq<Call>, lost: multiset<Shard>)
    requires Finished(first, calls, lost) && Heard(calls, fn) && Refuses(fn, down) && first.node in down
    requires OwnersOf(first.shards) <= down
    ensures Values(calls) == [] && !Failed(calls)
  {
    hide Settled, Heard, Refuses, Balanced, OwnersOf;
    forall i | 0 <= i < |calls| ensures calls[i].outcome == Retry {
      HeardAt(calls, fn, down, i);
      if i > 0 {
        CarriesShards(first, calls, i);
      }
    }
    RefusedSayNothing(calls);
  }

  lemma CarriesShards(first: Plan, calls: seq<Call>, i: nat)
    requires Disciplined(first, calls) && 0 < i < |calls|
    ensures calls[i].node in OwnersOf(first.shards)
  {
    hide Settled;
    var s := calls[i].shards[0];
    assert s in calls[i].shards && calls[i].node in s.owners;
    assert WithinBudget(first, calls, i);
    assert s in Settled(calls[..i]) + multiset(calls[i].shards);
    assert s in multiset(first.shards);
    assert s in first.shards;
  }

  lemma {:induction false} RefusedSayNothing(calls: seq<Call>)
    requires forall i :: 0 <= i < |calls| ==> calls[i].outcome == Retry
    ensures Values(calls) == [] && !Failed(calls)
  {
    if calls != [] {
      RefusedSayNothing(calls[..|calls| - 1]);
    }
  }

  // ---------- the whole query ----------

  datatype Branch = Branch(plan: Plan, calls: seq<Call>, lost: multiset<Shard>)

  ghost function AllSettled(bs: seq<Branch>): (r: multiset<Shard>) {
    if bs == [] then multiset{} else AllSettled(bs[..|bs| - 1]) + Settled(bs[|bs| - 1].calls)
  }

  ghost function AllLost(bs: seq<Branch>): (r: multiset<Shard>) {
    if bs == [] then multiset{} else AllLost(bs[..|bs| - 1]) + bs[|bs| - 1].lost
  }

  ghost function AllValues(bs: seq<Branch>): (r: seq<nat>) {
    if bs == [] then [] else AllValues(bs[..|bs| - 1]) + Values(bs[|bs| - 1].calls)
  }

  ghost predicate AllFinished(plans: seq<Plan>, bs: seq<Branch>) {
    |bs| == |plans| && forall i :: 0 <= i < |bs| ==> bs[i].plan == plans[i] && Finished(plans[i], bs[i].calls, bs[i].lost)
  }

  lemma BranchConserves(plan: Plan, calls: seq<Call>, lost: multiset<Shard>)
    requires Finished(plan, calls, lost)
    ensures Settled(calls) + lost == multiset(plan.shards)
  {
    hide Disciplined, Refusers, Settled;
    NoPlans();
  }

  lemma Regroup(a: multiset<Shard>, b: multiset<Shard>, c: multiset<Shard>, d: multiset<Shard>)
    ensures (a + b) + (c + d) == (a + c) + (b + d)
  {
  }

  lemma {:induction false} AllConserved(plans: seq<Plan>, bs: seq<Branch>)
    requires AllFinished(plans, bs)
    ensures AllSettled(bs) + AllLost(bs) == Bag(plans)
  {
    hide Finished, Settled, Bag;
    if bs == [] {
      NoPlans();
    } else {
      var k := |bs| - 1;
      AllConserved(plans[..k], bs[..k]);
      BagSnoc(plans[..k], plans[k]);
      assert plans == plans[..k] + [plans[k]];
      BranchConserves(plans[k], bs[k].calls, bs[k].lost);
      Regroup(AllSettled(bs[..k]), Settled(bs[k].calls), AllLost(bs[..k]), bs[k].lost);
    }
  }

  ghost predicate AllHeard(bs: seq<Branch>, fns: nat -> QueryFn) {
    forall i :: 0 <= i < |bs| ==> Heard(bs[i].calls, fns(bs[i].plan.node))
  }

  ghost predicate SomeFailed(bs: seq<Branch>) {
    exists b :: b in bs && Failed(b.calls)
  }

  /** All branches finished, with this result and error. */
  ghost predicate AllEnded(plans: seq<Plan>, fns: nat -> QueryFn, bs: seq<Branch>, result: seq<nat>, failed: bool) {
    AllFinished(plans, bs) && AllHeard(bs, fns) && result == AllValues(bs) && failed == SomeFailed(bs)
  }

  lemma BranchSnoc(plans: seq<Plan>, fns: nat -> QueryFn, bs: seq<Branch>, result: seq<nat>, failed: bool,
                   p: Plan, calls: seq<Call>, lost: multiset<Shard>, arr: seq<nat>, bad: bool)
    requires AllEnded(plans, fns, bs, result, failed) && Ended(p, fns(p.node), calls, lost, arr, bad)
    ensures AllEnded(plans + [p], fns, bs + [Branch(p, calls, lost)], result + arr, failed || bad)
  {
    hide Finished, Failed, Values, Heard;
    var more := bs + [Branch(p, calls, lost)];
    assert more[..|bs|] == bs;
    assert forall x :: x in more <==> x in bs || x == Branch(p, calls, lost);
  }

  /** The branches, in the order in which their results are collected; each has its own sequence of calls. */
  method RunBranches(plans: seq<Plan>, fns: nat -> QueryFn) returns (result: seq<nat>, failed: bool)
    requires forall p, s :: p in plans && s in p.shards ==> 0 !in s.owners
    ensures exists bs :: AllEnded(plans, fns, bs, result, failed)
  {
    hide AllEnded, Ended, OwnersOf;
    result, failed := [], false;
    ghost var bs: seq<Branch> := [];
    NoBranches(fns);
    for i := 0 to |plans|
      invariant AllEnded(plans[..i], fns, bs, result, failed)
    {
      assert plans[i] in plans;
      var arr, bad, _ := ExecutePlanWithRetry(plans[i].node, plans[i].shards, fns(plans[i].node));
      ghost var calls, lost :| Ended(plans[i], fns(plans[i].node), calls, lost, arr, bad);
      BranchSnoc(plans[..i], fns, bs, result, failed, plans[i], calls, lost, arr, bad);
      assert plans[..i + 1] == plans[..i] + [plans[i]];
      bs := bs + [Branch(plans[i], calls, lost)];
      result, failed := result + arr, failed || bad;
    }
    assert plans[..|plans|] == plans;
  }

  lemma NoBranches(fns: nat -> QueryFn)
    ensures AllEnded([], fns, [], [], false)
  {
  }

  /** `Node2ShardIDs.ExecuteWithRetry`: one branch for every node of the plan, in any order. */
  method ExecuteWithRetry(m: map<nat, seq<Shard>>, fns: nat -> QueryFn) returns (result: seq<nat>, failed: bool)
    requires forall n, s :: n in m && s in m[n] ==> 0 !in s.owners
    ensures exists plans, bs :: Enumerates(plans, m) && AllEnded(plans, fns, bs, result, failed)
  {
    hide AllEnded;
    var plans := Schedule(m);
    result, failed := RunBranches(plans, fns);
  }

  /** A whole query: what was settled and what was given up are exactly the shards that could be planned. */
  lemma QueryConserves(queried: seq<Shard>, current: nat, m: map<nat, seq<Shard>>, picks: seq<Assigned>,
                       fns: nat -> QueryFn, plans: seq<Plan>, bs: seq<Branch>, result: seq<nat>, failed: bool)
    requires Explains(picks, m, current, queried, {})
    requires Enumerates(plans, m) && AllEnded(plans, fns, bs, result, failed)
    ensures AllSettled(bs) + AllLost(bs) == multiset(PlannableOf(queried, current, {}))
  {
    hide PlanOf, Permitted, Economical, ShardsOf, PlannableOf, Enumerates, AllFinished, AllHeard, AllSettled, AllLost, Bag;
    EnumerationBag(plans, m, picks);
    AllConserved(plans, bs);
  }

  // ---------- what a whole query loses ----------

  /** Every plan of the query goes to an owner of each shard it carries. */
  ghost predicate ToOwners(plans: seq<Plan>) {
    forall p, s :: p in plans && s in p.shards ==> p.node in s.owners
  }

  lemma PlannedToOwners(queried: seq<Shard>, current: nat, m: map<nat, seq<Shard>>, picks: seq<Assigned>, plans: seq<Plan>)
    requires Explains(picks, m, current, queried, {}) && Enumerates(plans, m)
    ensures ToOwners(plans)
  {
    hide ShardsTo, ShardsOf, PlannableOf, Economical;
    forall p, s | p in plans && s in p.shards ensures p.node in s.owners {
      SentWasPicked(picks, p.node, s);
      var i :| 0 <= i < |picks| && picks[i] == Assigned(s, p.node);
      assert Permitted(picks[i], current, {});
    }
  }

  predicate AllDown(s: Shard, down: set<nat>) {
    forall o :: o in s.owners ==> o in down
  }

  lemma {:induction false} AllLostCount(plans: seq<Plan>, fns: nat -> QueryFn, down: set<nat>, bs: seq<Branch>, s: Shard)
    requires AllFinished(plans, bs) && AllHeard(bs, fns) && (forall n :: Refuses(fns(n), down)) && ToOwners(plans)
    ensures AllLost(bs)[s] == if AllDown(s, down) then Bag(plans)[s] else 0
  {
    hide Finished, Heard, Refuses, Bag;
    if bs == [] {
      NoPlans();
    } else {
      var k := |bs| - 1;
      AllLostCount(plans[..k], fns, down, bs[..k], s);
      assert plans == plans[..k] + [plans[k]];
      BagSnoc(plans[..k], plans[k]);
      LostCount(plans[k], fns(plans[k].node), down, bs[k].calls, bs[k].lost, s);
      assert plans[k] in plans;
    }
  }

  lemma {:induction false} NoneFails(fns: nat -> QueryFn, bs: seq<Branch>)
    requires AllHeard(bs, fns) && forall n, i: nat, node: nat, ss :: fns(n)(i, node, ss) != Failure
    ensures !SomeFailed(bs)
  {
    forall b, c | b in bs && c in b.calls ensures c.outcome != Failure {
      var i :| 0 <= i < |bs| && bs[i] == b;
      assert Heard(bs[i].calls, fns(b.plan.node));
      var j :| 0 <= j < |b.calls| && b.calls[j] == c;
    }
  }

  /**
   Told before the query: with the nodes in `down` refusing, the shards missing from the answer
   are exactly those that have owners and all of whose owners are down, however they are planned.
   Unless some call fails otherwise there is no error.
   */
  lemma QueryLossExact(queried: seq<Shard>, current: nat, m: map<nat, seq<Shard>>, picks: seq<Assigned>,
                       fns: nat -> QueryFn, down: set<nat>, plans: seq<Plan>, bs: seq<Branch>, result: seq<nat>, failed: bool)
    requires Explains(picks, m, current, queried, {})
    requires Enumerates(plans, m) && AllEnded(plans, fns, bs, result, failed)
    requires forall n :: Refuses(fns(n), down)
    ensures forall s :: AllLost(bs)[s] == if s.owners != [] && AllDown(s, down) then multiset(queried)[s] else 0
    ensures (forall n, i: nat, node: nat, ss :: fns(n)(i, node, ss) != Failure) ==> !failed
  {
    hide PlanOf, Permitted, Economical, ShardsOf, PlannableOf, Enumerates, AllFinished, AllHeard, AllLost, AllDown, Bag, Refuses,
      SomeFailed;
    PlannedToOwners(queried, current, m, picks, plans);
    EnumerationBag(plans, m, picks);
    forall s ensures AllLost(bs)[s] == if s.owners != [] && AllDown(s, down) then multiset(queried)[s] else 0 {
      AllLostCount(plans, fns, down, bs, s);
      PlannableCount(queried, current, {}, s);
      PlannableAtFirst(s, current);
    }
    if forall n, i: nat, node: nat, ss :: fns(n)(i, node, ss) != Failure {
      NoneFails(fns, bs);
    }
  }

  lemma PlannableAtFirst(s: Shard, current: nat)
    ensures Plannable(s, current, {}) <==> s.owners != []
  {
    NothingBlocked(s.owners, {});
  }
}
