/**
 The metadata operations of services/meta/data.go as functions on values, and the
 clone-change-commit of services/meta/store.go around them.
 */
module MetaOps {
  import opened Bytes
  import opened Lists
  import opened MetaModel
  import opened NodeRemoval
  import opened Placement

  /** The commands that reach the metadata through the replicated log. */
  datatype Cmd =
    | CreateDataNode(host: string, tcpHost: string)
    | DeleteDataNode(id: nat)
    | FreezeDataNode(id: nat)
    | UnfreezeDataNode(id: nat)
    | CreateShardGroup(db: string, policy: string, t: int)
    | AddShardOwner(shard: nat, node: nat)
    | RemoveShardOwner(shard: nat, node: nat)
    | DeleteShardGroup(db: string, policy: string, id: nat)
    | PruneShardGroups(expiration: int)

  datatype Result = Result(meta: Meta, err: Err)

  // ---------- nodes ----------

  predicate NodeMatches(n: NodeInfo, host: string, tcpHost: string) {
    n.tcpHost == tcpHost || n.host == host
  }

  /** Id of the first node with that host or TCP host, 0 if there is none. */
  function MatchingId(nodes: seq<NodeInfo>, host: string, tcpHost: string): (id: nat) {
    if nodes == [] then 0
    else if NodeMatches(nodes[0], host, tcpHost) then nodes[0].id
    else MatchingId(nodes[1..], host, tcpHost)
  }

  predicate NodeLess(a: NodeInfo, b: NodeInfo) {
    a.id < b.id
  }

  function CreateNode(d: Meta, host: string, tcpHost: string): (r: Result) {
    if exists i :: 0 <= i < |d.dataNodes| && NodeMatches(d.dataNodes[i], host, tcpHost)
    then Result(d, NodeExists)
    else
      var existing := MatchingId(d.metaNodes, host, tcpHost);
      var max := if existing == 0 then d.maxNodeID + 1 else d.maxNodeID;
      var id := if existing == 0 then max else existing;
      Result(d.(maxNodeID := max, dataNodes := Sort(d.dataNodes + [NodeInfo(id, host, tcpHost)], NodeLess)), OK)
  }

  function Freeze(d: Meta, id: nat): (r: Result) {
    if id == 0 then Result(d, NodeIDRequired)
    else if id !in NodeIds(d.dataNodes) then Result(d, NodeNotFound)
    else if id in d.frozen then Result(d, NodeAlreadyFreezed)
    else Result(d.(frozen := d.frozen + [id]), OK)
  }

  function Thaw(frozen: seq<nat>, id: nat): (r: seq<nat>) {
    var i := IndexOf(frozen, id);
    if i < |frozen| then RemoveAt(frozen, i) else frozen
  }

  function Unfreeze(d: Meta, id: nat): (r: Result) {
    if id == 0 then Result(d, NodeIDRequired)
    else if id !in NodeIds(d.dataNodes) then Result(d, NodeNotFound)
    else if id !in d.frozen then Result(d, NodeNotFreezed)
    else Result(d.(frozen := Thaw(d.frozen, id)), OK)
  }

  function NodesWithout(nodes: seq<NodeInfo>, id: nat): (r: seq<NodeInfo>)
    ensures |r| <= |nodes|
  {
    if nodes == [] then []
    else
      var n := |nodes| - 1;
      NodesWithout(nodes[..n], id) + if nodes[n].id != id then [nodes[n]] else []
  }

  ghost function RemoveFromGroups(gs: seq<Group>, id: nat, now: int): (r: Option<seq<Group>>)
    ensures r.Some? ==> |r.value| == |gs|
  {
    if gs == [] then Some([])
    else
      var front, last := RemoveFromGroups(gs[..|gs| - 1], id, now), RemoveFromGroup(gs[|gs| - 1], id, now);
      if front.None? || last.None? then None else Some(front.value + [last.value])
  }

  ghost function RemoveFromPolicies(ps: seq<Policy>, id: nat, now: int): (r: Option<seq<Policy>>)
    ensures r.Some? ==> |r.value| == |ps|
  {
    if ps == [] then Some([])
    else
      var p := ps[|ps| - 1];
      var front, groups := RemoveFromPolicies(ps[..|ps| - 1], id, now), RemoveFromGroups(p.groups, id, now);
      if front.None? || groups.None? then None else Some(front.value + [p.(groups := groups.value)])
  }

  ghost function DeleteNode(d: Meta, id: nat, now: int): (r: Result) {
    if id == 0 then Result(d, NodeIDRequired)
    else if id !in NodeIds(d.dataNodes) then Result(d, NodeNotFound)
    else
      match RemoveFromPolicies(d.policies, id, now)
      case None => Result(d, NoNewOwner)
      case Some(policies) =>
        Result(d.(dataNodes := NodesWithout(d.dataNodes, id), policies := policies, frozen := Thaw(d.frozen, id)), OK)
  }

  // ---------- shard groups ----------

  /** First policy of that name in that database, or the length. */
  function PolicyIndex(ps: seq<Policy>, db: string, name: string): (i: nat)
    ensures i <= |ps|
    ensures i < |ps| ==> ps[i].db == db && ps[i].name == name
  {
    if ps == [] then 0
    else if ps[0].db == db && ps[0].name == name then 0
    else 1 + PolicyIndex(ps[1..], db, name)
  }

  function PolicyErr(d: Meta, db: string, name: string): (e: Err) {
    if db !in d.databases then DatabaseNotFound
    else if PolicyIndex(d.policies, db, name) == |d.policies| then PolicyNotFound
    else OK
  }

  predicate Covered(gs: seq<Group>, t: int) {
    exists i :: 0 <= i < |gs| && gs[i].Covers(t)
  }

  /** `ShardGroupByTimestamp`: the first group of the policy that covers the time. */
  function Answer(gs: seq<Group>, t: int): (r: Option<Group>)
    ensures r.Some? ==> r.value in gs && r.value.Covers(t)
    ensures r.None? ==> forall g :: g in gs ==> !g.Covers(t)
  {
    if gs == [] then None else if gs[0].Covers(t) then Some(gs[0]) else Answer(gs[1..], t)
  }

  lemma AnswerExact(gs: seq<Group>, t: int)
    ensures Answer(gs, t).Some? <==> Covered(gs, t)
  {
    if Answer(gs, t).Some? {
      var i :| 0 <= i < |gs| && gs[i] == Answer(gs, t).value;
    } else {
      assert forall i :: 0 <= i < |gs| ==> gs[i] in gs;
    }
  }

  /** The group for a time in a policy, if there is one. */
  function AnswerIn(d: Meta, db: string, name: string, t: int): (r: Option<Group>) {
    if PolicyErr(d, db, name) != OK then None else Answer(d.policies[PolicyIndex(d.policies, db, name)].groups, t)
  }

  function EffectiveEnd(g: Group): (e: int) {
    if g.truncatedAt != 0 then g.truncatedAt else g.end
  }

  predicate GroupLess(a: Group, b: Group) {
    if EffectiveEnd(a) == EffectiveEnd(b) then a.start < b.start else EffectiveEnd(a) < EffectiveEnd(b)
  }

  /** How many replicas a shard gets, before the check that there is at least one. */
  function Replicas(replicaN: int, available: nat): (n: int) {
    if replicaN == 0 then 1 else if replicaN > available then available else replicaN
  }

  function NewGroup(d: Meta, p: Policy, t: int, avail: seq<nat>, replicaN: nat): (g: Group)
    requires avail != [] && replicaN > 0
  {
    var start := Truncate(t, p.groupDuration);
    Group(d.maxGroupID + 1, start, EndOf(start, p.groupDuration), 0, 0,
          ShardsDealt(avail, d.index % |avail|, replicaN, d.maxShardID + 1, |avail| / replicaN))
  }

  /** `Data.CreateShardGroup`; dividing by the number of available nodes can panic. */
  function CreateGroup(d: Meta, db: string, name: string, t: int): (r: Result) {
    if d.dataNodes == [] then Result(d, NodeNotFound)
    else if PolicyErr(d, db, name) != OK then Result(d, PolicyErr(d, db, name))
    else
      var i := PolicyIndex(d.policies, db, name);
      var p := d.policies[i];
      if Covered(p.groups, t) then Result(d, OK)
      else
        var avail := Available(d.dataNodes, d.frozen);
        var replicaN := Replicas(p.replicaN, |avail|);
        if replicaN < 1 then Result(d, NoReplica)
        else if avail == [] then Result(d, Panic)
        else
          var g := NewGroup(d, p, t, avail, replicaN);
          Result(d.(maxGroupID := d.maxGroupID + 1, maxShardID := d.maxShardID + |g.shards|,
                    policies := d.policies[i := p.(groups := Sort(p.groups + [g], GroupLess))]), OK)
  }

  /** Index of the first group with that id, or the length. */
  function GroupIndex(gs: seq<Group>, id: nat): (i: nat)
    ensures i <= |gs|
    ensures i < |gs| ==> gs[i].id == id
  {
    if gs == [] then 0 else if gs[0].id == id then 0 else 1 + GroupIndex(gs[1..], id)
  }

  function DeleteGroup(d: Meta, db: string, name: string, id: nat, now: int): (r: Result) {
    if PolicyErr(d, db, name) != OK then Result(d, PolicyErr(d, db, name))
    else
      var i := PolicyIndex(d.policies, db, name);
      var p := d.policies[i];
      var j := GroupIndex(p.groups, id);
      if j == |p.groups| then Result(d, GroupNotFound)
      else Result(d.(policies := d.policies[i := p.(groups := p.groups[j := p.groups[j].(deletedAt := now)])]), OK)
  }

  // ---------- shard owners ----------

  function Without(owners: seq<nat>, node: nat): (r: seq<nat>) {
    if owners == [] then []
    else
      var n := |owners| - 1;
      Without(owners[..n], node) + if owners[n] != node then [owners[n]] else []
  }

  /** What happens to the one shard that is found. */
  function Reowned(s: Shard, node: nat, add: bool): (r: Shard) {
    if !add then Shard(s.id, Without(s.owners, node))
    else if node in s.owners then s
    else Shard(s.id, s.owners + [node])
  }

  /** The first shard with that id changes; None when there is none in the list. */
  function ReownShards(ss: seq<Shard>, id: nat, node: nat, add: bool): (r: Option<seq<Shard>>)
    ensures r.Some? ==> |r.value| == |ss|
  {
    var i := IndexOf(Ids(ss), id);
    if i < |ss| then Some(ss[i := Reowned(ss[i], node, add)]) else None
  }

  function ReownGroups(gs: seq<Group>, id: nat, node: nat, add: bool): (r: Option<seq<Group>>)
    ensures r.Some? ==> |r.value| == |gs|
  {
    if gs == [] then None
    else
      match ReownShards(gs[0].shards, id, node, add)
      case Some(ss) => Some([gs[0].(shards := ss)] + gs[1..])
      case None =>
        var rest := ReownGroups(gs[1..], id, node, add);
        if rest.None? then None else Some([gs[0]] + rest.value)
  }

  function ReownPolicies(ps: seq<Policy>, id: nat, node: nat, add: bool): (r: Option<seq<Policy>>)
    ensures r.Some? ==> |r.value| == |ps|
  {
    if ps == [] then None
    else
      match ReownGroups(ps[0].groups, id, node, add)
      case Some(gs) => Some([ps[0].(groups := gs)] + ps[1..])
      case None =>
        var rest := ReownPolicies(ps[1..], id, node, add);
        if rest.None? then None else Some([ps[0]] + rest.value)
  }

  function Reown(d: Meta, shard: nat, node: nat, add: bool): (r: Result) {
    match ReownPolicies(d.policies, shard, node, add)
    case None => Result(d, OK)
    case Some(ps) => Result(d.(policies := ps), OK)
  }

  // ---------- pruning ----------

  predicate Expired(g: Group, expiration: int) {
    g.Deleted() && expiration > g.deletedAt
  }

  function Remaining(gs: seq<Group>, expiration: int): (r: seq<Group>)
    ensures |r| <= |gs|
  {
    if gs == [] then []
    else
      var n := |gs| - 1;
      Remaining(gs[..n], expiration) + if Expired(gs[n], expiration) then [] else [gs[n]]
  }

  lemma RemainingNone(expiration: int)
    ensures Remaining([], expiration) == []
  {
  }

  lemma RemainingSnoc(gs: seq<Group>, g: Group, expiration: int)
    ensures Remaining(gs + [g], expiration) == Remaining(gs, expiration) + if Expired(g, expiration) then [] else [g]
  {
    assert (gs + [g])[..|gs|] == gs;
  }

  lemma {:induction false} RemainingAre(gs: seq<Group>, expiration: int)
    ensures forall g :: g in Remaining(gs, expiration) <==> g in gs && !Expired(g, expiration)
  {
    if gs != [] {
      var n := |gs| - 1;
      RemainingAre(gs[..n], expiration);
      assert gs == gs[..n] + [gs[n]];
    }
  }

  function PrunePolicies(ps: seq<Policy>, expiration: int): (r: seq<Policy>)
    ensures |r| == |ps|
  {
    seq(|ps|, i requires 0 <= i < |ps| => ps[i].(groups := Remaining(ps[i].groups, expiration)))
  }

  // ---------- the store ----------

  /** The change a command asks for, before it is committed. */
  ghost function Change(d: Meta, c: Cmd, now: int): (r: Result) {
    match c
    case CreateDataNode(host, tcpHost) => CreateNode(d, host, tcpHost)
    case DeleteDataNode(id) => DeleteNode(d, id, now)
    case FreezeDataNode(id) => Freeze(d, id)
    case UnfreezeDataNode(id) => Unfreeze(d, id)
    case CreateShardGroup(db, policy, t) => CreateGroup(d, db, policy, t)
    case AddShardOwner(shard, node) => Reown(d, shard, node, true)
    case RemoveShardOwner(shard, node) => Reown(d, shard, node, false)
    case DeleteShardGroup(db, policy, id) => DeleteGroup(d, db, policy, id, now)
    case PruneShardGroups(expiration) => Result(d.(policies := PrunePolicies(d.policies, expiration)), OK)
  }

  /** Commands that find nothing to do return without a commit. */
  predicate NothingToDo(d: Meta, c: Cmd) {
    match c
    case CreateShardGroup(db, policy, t) =>
      && PolicyErr(d, db, policy) == OK
      && Covered(d.policies[PolicyIndex(d.policies, db, policy)].groups, t)
    case PruneShardGroups(expiration) => PrunePolicies(d.policies, expiration) == d.policies
    case _ => false
  }

  /** A failed command leaves the store as it was; a committed one moves the index by one. */
  ghost function Apply(d: Meta, c: Cmd, now: int): (r: Result) {
    if NothingToDo(d, c) then Result(d, OK)
    else
      var change := Change(d, c, now);
      if change.err != OK then Result(d, change.err)
      else Result(change.meta.(index := change.meta.index + 1), OK)
  }
}
