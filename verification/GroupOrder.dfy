/**
 Shard groups are stored sorted by end and start time, as other parts of the system rely
 on (services/meta/data.go). Every command keeps them so.
 */
module GroupOrder {
  import opened AnyRuns
  import opened Bytes
  import opened Lists
  import opened MetaModel
  import opened MetaOps
  import opened MetaRuns
  import opened NodeRemoval
  import opened Placement
  import PointMapping

  ghost predicate GroupsSorted(ps: seq<Policy>) {
    forall i :: 0 <= i < |ps| ==> Sorted(ps[i].groups, GroupLess)
  }

  /** The order looks only at times that changes to a group keep. */
  lemma ReshapeKeepsSorted(ps: seq<Policy>, qs: seq<Policy>)
    requires GroupsSorted(ps) && PoliciesReshaped(ps, qs)
    ensures GroupsSorted(qs)
  {
    hide Ids;
    forall k, i, j | 0 <= k < |qs| && 0 <= i < j < |qs[k].groups|
      ensures !GroupLess(qs[k].groups[j], qs[k].groups[i])
    {
      assert Sorted(ps[k].groups, GroupLess);
      assert Reshaped(ps[k].groups[i], qs[k].groups[i]);
      assert Reshaped(ps[k].groups[j], qs[k].groups[j]);
    }
  }

  lemma CreateKeepsSorted(d: Meta, db: string, name: string, t: int)
    requires GroupsSorted(d.policies)
    ensures GroupsSorted(CreateGroup(d, db, name, t).meta.policies)
  {
    hide Sorted, Sort, Available, NewGroup, PolicyIndex;
    PointMapping.GroupOrdering();
    forall gs: seq<Group> ensures Sorted(Sort(gs, GroupLess), GroupLess) {
      SortSorts(gs, GroupLess);
    }
  }

  lemma {:induction false} RemainingSorted(gs: seq<Group>, expiration: int)
    requires Sorted(gs, GroupLess)
    ensures Sorted(Remaining(gs, expiration), GroupLess)
  {
    if gs != [] {
      var n := |gs| - 1;
      RemainingSorted(gs[..n], expiration);
      var r := Remaining(gs[..n], expiration);
      forall i | 0 <= i < |r| ensures !GroupLess(gs[n], r[i]) {
        RemainingAre(gs[..n], expiration);
        assert r[i] in r;
      }
    }
  }

  lemma ChangeKeepsSorted(d: Meta, c: Cmd, now: int)
    requires GroupsSorted(d.policies)
    ensures GroupsSorted(Change(d, c, now).meta.policies)
  {
    hide GroupsSorted, Change;
    if c.CreateShardGroup? {
      CreateKeepsSorted(d, c.db, c.policy, c.t);
      CreateIs(d, c, now);
    } else if c.PruneShardGroups? {
      PruneKeepsSorted(d.policies, c.expiration);
      PruneIs(d, c, now);
    } else {
      ChangeReshapes(d, c, now);
      ReshapeKeepsSorted(d.policies, Change(d, c, now).meta.policies);
    }
  }

  lemma PruneKeepsSorted(ps: seq<Policy>, expiration: int)
    requires GroupsSorted(ps)
    ensures GroupsSorted(PrunePolicies(ps, expiration))
  {
    hide Sorted, Remaining;
    forall i | 0 <= i < |ps| ensures Sorted(PrunePolicies(ps, expiration)[i].groups, GroupLess) {
      RemainingSorted(ps[i].groups, expiration);
    }
  }

  /** In every state of every run of any commands the groups of every policy are sorted. */
  lemma {:induction false} RunKeepsSorted(ds: seq<Meta>, cs: seq<Cmd>, clocks: seq<int>, i: nat)
    requires AnyRun(ds, cs, clocks) && i < |ds|
    ensures GroupsSorted(ds[i].policies)
  {
    hide Change, GroupsSorted;
    if i == 0 {
      NoGroupsSorted(ds[0].policies);
    } else {
      RunKeepsSorted(ds, cs, clocks, i - 1);
      ChangeKeepsSorted(ds[i - 1], cs[i - 1], clocks[i - 1]);
    }
  }

  lemma NoGroupsSorted(ps: seq<Policy>)
    requires forall i :: 0 <= i < |ps| ==> ps[i].groups == []
    ensures GroupsSorted(ps)
  {
  }

  lemma GroupRange(d: Meta, k: nat, i: nat)
    requires Inv(d) && k < |d.policies| && d.policies[k].groupDuration > 0 && i < |d.policies[k].groups|
    ensures d.policies[k].groups[i].truncatedAt == 0
    ensures d.policies[k].groups[i].start < d.policies[k].groups[i].end
  {
    hide Clean;
    PolicyOkAt(d.policies, k, d.maxGroupID, d.maxShardID);
    var p := d.policies[k];
    assert GroupOk(p.groups[i], p.groupDuration, d.maxGroupID, d.maxShardID);
  }

  /** What the mapping of points assumes about the groups it is given holds in every reachable state. */
  lemma LiveGroupsApart(d: Meta, k: nat, i: nat, j: nat)
    requires Inv(d) && k < |d.policies| && d.policies[k].groupDuration > 0
    requires i < |d.policies[k].groups| && j < |d.policies[k].groups|
    requires !d.policies[k].groups[i].Deleted() && !d.policies[k].groups[j].Deleted()
    ensures PointMapping.Apart(d.policies[k].groups[i], d.policies[k].groups[j])
    ensures d.policies[k].groups[i].truncatedAt == 0
    ensures d.policies[k].groups[i].start < d.policies[k].groups[i].end
  {
    hide Inv;
    var g, h := d.policies[k].groups[i], d.policies[k].groups[j];
    GroupRange(d, k, i);
    GroupRange(d, k, j);
    var t := if g.start <= h.start then h.start else g.start;
    if i < j {
      LiveGroupsDisjoint(d, k, i, j, t);
    } else if j < i {
      LiveGroupsDisjoint(d, k, j, i, t);
    }
  }

  // ---------- what the metadata answers to a write ----------

  ghost predicate HasShards(ps: seq<Policy>) {
    forall i, j :: 0 <= i < |ps| && 0 <= j < |ps[i].groups| ==> ps[i].groups[j].shards != []
  }

  lemma NumberedHasShards(d: Meta)
    requires Numbered(d)
    ensures HasShards(d.policies)
  {
    forall i, j | 0 <= i < |d.policies| && 0 <= j < |d.policies[i].groups| ensures d.policies[i].groups[j].shards != [] {
      assert GroupNumbered(d.policies[i].groups[j], d.maxGroupID, d.maxShardID);
    }
  }

  lemma CreateKeepsShards(d: Meta, db: string, name: string, t: int)
    requires HasShards(d.policies)
    ensures HasShards(CreateGroup(d, db, name, t).meta.policies)
  {
    hide CreateGroup;
    var e := CreateGroup(d, db, name, t).meta;
    var g := CreateAdds(d, db, name, t);
    if e != d {
      forall i, j | 0 <= i < |e.policies| && 0 <= j < |e.policies[i].groups| ensures e.policies[i].groups[j].shards != [] {
        assert e.policies[i].groups[j] in e.policies[i].groups;
      }
    }
  }

  /** In every state of every run of any commands every group has a shard. */
  lemma RunKeepsShards(ds: seq<Meta>, cs: seq<Cmd>, clocks: seq<int>, i: nat)
    requires AnyRun(ds, cs, clocks) && i < |ds|
    ensures HasShards(ds[i].policies)
  {
    hide Numbered, AnyRun;
    RunKeepsNumbers(ds, cs, clocks, i);
    NumberedHasShards(ds[i]);
  }

  /** The answers of one reachable state meet everything that mapping points relies on. */
  lemma AnswersHonest(d: Meta, k: nat)
    requires Inv(d) && HasShards(d.policies) && k < |d.policies| && d.policies[k].groupDuration > 0
    ensures var create := (t: int) => Answer(d.policies[k].groups, t);
            PointMapping.Honest(create) && PointMapping.Choosable(create)
  {
    hide Inv, Answer;
    var gs := d.policies[k].groups;
    forall t, u | Answer(gs, t).Some? && Answer(gs, u).Some?
      ensures PointMapping.Apart(Answer(gs, t).value, Answer(gs, u).value)
      ensures Answer(gs, t).value.Contains(t) && Answer(gs, t).value.truncatedAt == 0 && Answer(gs, t).value.shards != []
    {
      var i :| 0 <= i < |gs| && gs[i] == Answer(gs, t).value;
      var j :| 0 <= j < |gs| && gs[j] == Answer(gs, u).value;
      LiveGroupsApart(d, k, i, j);
    }
  }

  /** Later creations do not change an answer: the group stays, and no other covers the time. */
  lemma AnswerStays(d: Meta, db: string, name: string, u: int, k: nat, t: int)
    requires Inv(d) && u <= MAX_TIME && k < |d.policies| && d.policies[k].groupDuration > 0
    requires Answer(d.policies[k].groups, t).Some?
    ensures var e := CreateGroup(d, db, name, u).meta;
            && k < |e.policies| && e.policies[k].groupDuration > 0
            && Answer(e.policies[k].groups, t) == Answer(d.policies[k].groups, t)
  {
    hide Inv, NewGroup, Available, PolicyIndex, Sort, Answer;
    CreateGroupKeepsInv(d, db, name, u);
    var e := CreateGroup(d, db, name, u).meta;
    var gs, hs := d.policies[k].groups, e.policies[k].groups;
    var g := Answer(gs, t).value;
    StillThere(d, db, name, u, k, g);
    var i :| 0 <= i < |hs| && hs[i] == g;
    assert Answer(hs, t).Some?;
    var j :| 0 <= j < |hs| && hs[j] == Answer(hs, t).value;
    LiveGroupsApart(e, k, i, j);
  }

  lemma StillThere(d: Meta, db: string, name: string, u: int, k: nat, g: Group)
    requires k < |d.policies| && g in d.policies[k].groups
    ensures var e := CreateGroup(d, db, name, u).meta;
            && k < |e.policies| && e.policies[k].groupDuration == d.policies[k].groupDuration
            && g in e.policies[k].groups
  {
    hide NewGroup, Available, PolicyIndex, Sort;
    var i := PolicyIndex(d.policies, db, name);
    if CreateGroup(d, db, name, u).meta != d && i == k {
      var h := NewGroup(d, d.policies[i], u, Available(d.dataNodes, d.frozen),
                        Replicas(d.policies[i].replicaN, |Available(d.dataNodes, d.frozen)|));
      SortMember(d.policies[i].groups + [h], GroupLess, g);
    }
  }

  /** A write's successive creations, as states of the metadata. */
  ghost predicate Creations(ds: seq<Meta>, db: string, name: string, ts: seq<int>) {
    && |ds| == |ts| + 1 && Inv(ds[0])
    && forall i :: 0 <= i < |ts| ==> ts[i] <= MAX_TIME && ds[i + 1] == CreateGroup(ds[i], db, name, ts[i]).meta
  }

  lemma {:induction false} CreationsKeep(ds: seq<Meta>, db: string, name: string, ts: seq<int>, i: nat, j: nat, k: nat, t: int)
    requires Creations(ds, db, name, ts) && i <= j < |ds| && k < |ds[i].policies| && ds[i].policies[k].groupDuration > 0
    requires Inv(ds[i]) && Answer(ds[i].policies[k].groups, t).Some?
    ensures Inv(ds[j]) && k < |ds[j].policies| && ds[j].policies[k].groupDuration > 0
    ensures Answer(ds[j].policies[k].groups, t) == Answer(ds[i].policies[k].groups, t)
    decreases j - i
  {
    hide Inv, CreateGroup, Answer;
    if i < j {
      CreationsKeep(ds, db, name, ts, i, j - 1, k, t);
      CreateGroupKeepsInv(ds[j - 1], db, name, ts[j - 1]);
      AnswerStays(ds[j - 1], db, name, ts[j - 1], k, t);
      assert ds[(j - 1) + 1] == ds[j];
    }
  }

  // ---------- the groups of one request ----------

  /** What a state of the metadata answers for each time. */
  function Answers(d: Meta, db: string, name: string): (create: int -> Option<Group>) {
    (t: int) => AnswerIn(d, db, name, t)
  }

  /** The store after it was asked for a group. */
  ghost function AfterAsking(d: Meta, db: string, name: string, t: int, now: int): (e: Meta) {
    Apply(d, CreateShardGroup(db, name, t), now).meta
  }

  /**
   The groups a request gathers from the store, which is asked for one group after the
   other and may create it, and the metadata afterwards.
   */
  ghost function Asked(d: Meta, db: string, name: string, ps: seq<PointMapping.Point>, min: int, now: int)
    : (r: (Option<seq<Group>>, Meta))
  {
    if ps == [] then (Some([]), d)
    else
      var n := |ps| - 1;
      var (front, e) := Asked(d, db, name, ps[..n], min, now);
      var t := ps[n].time;
      if front.None? || t < min || PointMapping.Covered(front.value, t) then (front, e)
      else
        var after := AfterAsking(e, db, name, t, now);
        var g := AnswerIn(after, db, name, t);
        (if g.None? then None else Some(Sort(front.value + [g.value], GroupLess)), after)
  }

  /** What asking needs and keeps. */
  ghost predicate Ready(d: Meta, db: string, name: string) {
    && Inv(d) && HasShards(d.policies)
    && (PolicyErr(d, db, name) == OK ==> d.policies[PolicyIndex(d.policies, db, name)].groupDuration > 0)
  }

  lemma ReadyIsHonest(d: Meta, db: string, name: string)
    requires Ready(d, db, name)
    ensures PointMapping.Honest(Answers(d, db, name)) && PointMapping.Choosable(Answers(d, db, name))
  {
    hide Inv, HasShards, PolicyIndex, Answer;
    if PolicyErr(d, db, name) == OK {
      var k := PolicyIndex(d.policies, db, name);
      AnswersHonest(d, k);
      SameAnswers((t: int) => Answer(d.policies[k].groups, t), Answers(d, db, name));
    }
  }

  lemma SameAnswers(create: int -> Option<Group>, other: int -> Option<Group>)
    requires PointMapping.Honest(create) && PointMapping.Choosable(create) && forall t :: other(t) == create(t)
    ensures PointMapping.Honest(other) && PointMapping.Choosable(other)
  {
    forall t, u | other(t).Some? && other(u).Some? ensures PointMapping.Apart(other(t).value, other(u).value) {
      assert create(t).Some? && create(u).Some?;
    }
  }

  lemma SamePlace(d: Meta, db: string, name: string, t: int, now: int)
    ensures var e := AfterAsking(d, db, name, t, now);
            && PolicyErr(e, db, name) == PolicyErr(d, db, name)
            && PolicyIndex(e.policies, db, name) == PolicyIndex(d.policies, db, name)
            && e.policies == CreateGroup(d, db, name, t).meta.policies
  {
    hide NewGroup, Available, Sort;
    var i := PolicyIndex(d.policies, db, name);
    if PolicyErr(d, db, name) == OK {
      SamePolicyIndex(d.policies, i, d.policies[i].(groups := CreateGroup(d, db, name, t).meta.policies[i].groups), db, name);
    }
  }

  lemma AskingKeepsReady(d: Meta, db: string, name: string, t: int, now: int)
    requires Ready(d, db, name) && t <= MAX_TIME && now != 0
    ensures Ready(AfterAsking(d, db, name, t, now), db, name)
  {
    hide Inv, HasShards, PolicyIndex, CreateGroup, NothingToDo;
    ApplyKeepsInv(d, CreateShardGroup(db, name, t), now);
    SamePlace(d, db, name, t, now);
    CreateKeepsShards(d, db, name, t);
    var e := AfterAsking(d, db, name, t, now);
    if PolicyErr(d, db, name) == OK {
      DurationKept(d, db, name, t, PolicyIndex(d.policies, db, name));
    }
  }

  lemma DurationKept(d: Meta, db: string, name: string, t: int, k: nat)
    requires k < |d.policies|
    ensures var ps := CreateGroup(d, db, name, t).meta.policies;
            |ps| == |d.policies| && ps[k].groupDuration == d.policies[k].groupDuration
  {
    hide NewGroup, Available, Sort, PolicyIndex;
  }

  lemma AnswersStay(d: Meta, db: string, name: string, u: int, now: int)
    requires Ready(d, db, name) && u <= MAX_TIME && now != 0
    ensures var before, after := Answers(d, db, name), Answers(AfterAsking(d, db, name, u, now), db, name);
            forall t :: before(t).Some? ==> after(t) == before(t)
  {
    hide Inv, HasShards, PolicyIndex, CreateGroup, Answer, AfterAsking;
    var before, after := Answers(d, db, name), Answers(AfterAsking(d, db, name, u, now), db, name);
    SamePlace(d, db, name, u, now);
    forall t | before(t).Some? ensures after(t) == before(t) {
      AnswerStays(d, db, name, u, PolicyIndex(d.policies, db, name), t);
    }
  }

  /**
   Whatever a request makes the store create on the way, it is mapped as by the answers of
   the one state the store is in afterwards, and these are all that mapping relies on.
   */
  lemma {:induction false} RequestSeesOneState(
    d: Meta, db: string, name: string, ps: seq<PointMapping.Point>, min: int, now: int)
    requires Ready(d, db, name) && now != 0 && forall p :: p in ps ==> p.time <= MAX_TIME
    ensures var (l, e) := Asked(d, db, name, ps, min, now);
            && Ready(e, db, name)
            && PointMapping.Gathered(ps, min, Answers(e, db, name)) == l
            && PointMapping.Honest(Answers(e, db, name)) && PointMapping.Choosable(Answers(e, db, name))
  {
    hide Ready, PointMapping.Honest, PointMapping.Choosable, PointMapping.Covered, AfterAsking, AnswerIn, Sort;
    if ps != [] {
      var n := |ps| - 1;
      RequestSeesOneState(d, db, name, ps[..n], min, now);
      var (front, e) := Asked(d, db, name, ps[..n], min, now);
      var t := ps[n].time;
      assert ps[n] in ps;
      if front.Some? && t >= min && !PointMapping.Covered(front.value, t) {
        var after := AfterAsking(e, db, name, t, now);
        AskingKeepsReady(e, db, name, t, now);
        AnswersStay(e, db, name, t, now);
        PointMapping.GatheredStays(ps[..n], min, Answers(e, db, name), Answers(after, db, name));
        ReadyIsHonest(after, db, name);
      }
    } else {
      ReadyIsHonest(d, db, name);
    }
  }
}
