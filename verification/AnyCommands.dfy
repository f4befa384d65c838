/**
 Runs of any metadata commands, also of those that the other modules call illegal: exactly
 which command, told from the state before it, breaks the invariant.
 */
module AnyCommands {
  import opened MetaModel
  import opened MetaOps
  import opened MetaRuns
  import opened OwnedShards
  import opened Placement
  import opened ZeroOwner

  /** A group will be made for the time. */
  ghost predicate WillCreate(d: Meta, db: string, name: string, t: int) {
    && d.dataNodes != [] && PolicyErr(d, db, name) == OK
    && !Covered(d.policies[PolicyIndex(d.policies, db, name)].groups, t)
    && d.policies[PolicyIndex(d.policies, db, name)].replicaN >= 0
    && exists x :: x in NodeIds(d.dataNodes) && x !in d.frozen
  }

  /** A new group needs a range that is free, and node 0 must not get a shard. */
  ghost predicate Harmless(d: Meta, c: Cmd) {
    match c
    case CreateShardGroup(db, name, t) =>
      WillCreate(d, db, name, t) ==> RangeFree(d.policies[PolicyIndex(d.policies, db, name)], t)
    case AddShardOwner(shard, node) => node != 0 || Found(d.policies, shard).None?
    case _ => true
  }

  lemma CreatesExact(d: Meta, db: string, name: string, t: int)
    requires Inv(d)
    ensures Inv(CreateGroup(d, db, name, t).meta) <==> Harmless(d, CreateShardGroup(db, name, t))
  {
    hide Inv, PolicyIndex, RangeFree;
    var r := CreateGroup(d, db, name, t);
    if d.dataNodes != [] && PolicyErr(d, db, name) == OK && !Covered(d.policies[PolicyIndex(d.policies, db, name)].groups, t) {
      CreateGroupOutcome(d, db, name, t);
      assert r.err == OK <==> WillCreate(d, db, name, t);
      if r.err == OK {
        CreateGroupInvExact(d, db, name, t);
      }
    }
  }

  lemma IndexIsFree(d: Meta, index: nat)
    ensures Inv(d.(index := index)) <==> Inv(d)
  {
    hide PoliciesOk;
  }

  /** Every command keeps the invariant if and only if it is harmless. */
  lemma ApplyInvExact(d: Meta, c: Cmd, now: int)
    requires Inv(d) && now != 0
    ensures Inv(Apply(d, c, now).meta) <==> Harmless(d, c)
  {
    hide Inv, CreateGroup, CreateNode, DeleteNode, Freeze, Unfreeze, Reown, DeleteGroup, PrunePolicies, Found, WillCreate;
    hide RangeFree;
    if c.CreateShardGroup? {
      CreatesExact(d, c.db, c.policy, c.t);
      var r := CreateGroup(d, c.db, c.policy, c.t);
      IndexIsFree(r.meta, r.meta.index + 1);
      NothingMade(d, c);
    } else if c.AddShardOwner? && c.node == 0 {
      AddZeroExact(d, c.shard);
      var r := Reown(d, c.shard, 0, true);
      ReownSucceeds(d, c.shard);
      IndexIsFree(r.meta, r.meta.index + 1);
    } else {
      ApplyKeepsInv(d, c, now);
    }
  }

  lemma ReownSucceeds(d: Meta, shard: nat)
    ensures Reown(d, shard, 0, true).err == OK
  {
  }

  lemma NothingMade(d: Meta, c: Cmd)
    requires c.CreateShardGroup?
    ensures NothingToDo(d, c) || CreateGroup(d, c.db, c.policy, c.t).err != OK ==>
              CreateGroup(d, c.db, c.policy, c.t).meta == d
  {
    hide NewGroup, Available, PolicyIndex;
  }

  /** Over a whole run of any commands: the invariant holds throughout if and only if every command was harmless. */
  lemma {:induction false} RunInvExact(ds: seq<Meta>, cs: seq<Cmd>, clocks: seq<int>, i: nat)
    requires AnyRun(ds, cs, clocks) && i < |ds|
    ensures (forall j :: 0 <= j <= i ==> Inv(ds[j])) <==> forall j :: 0 <= j < i ==> Harmless(ds[j], cs[j])
  {
    hide Inv, Apply, Initial, Harmless;
    if i == 0 {
      InitialInv(ds[0]);
    } else {
      RunInvExact(ds, cs, clocks, i - 1);
      if forall j :: 0 <= j <= i - 1 ==> Inv(ds[j]) {
        ApplyInvExact(ds[i - 1], cs[i - 1], clocks[i - 1]);
        assert ds[(i - 1) + 1] == ds[i];
      }
    }
  }
}
