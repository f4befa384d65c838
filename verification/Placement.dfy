/**
 Creating a shard group: shards are dealt to the available nodes round robin, starting
 at a place that only depends on the metadata index.
 */
module Placement {
  import opened MetaModel

  /** `models.MaxNanoTime`, as nanoseconds since the zero time. */
  const MAX_TIME: int := 62135596800_000_000_000 + 9223372036854775806

  // ---------- time range ----------

  /** `Time.Truncate` */
  function Truncate(t: int, d: int): (r: int) {
    if d <= 0 then t else t - t % d
  }

  /** The end of the range that starts at `start`, kept within what a timestamp can hold. */
  function EndOf(start: int, d: int): (e: int) {
    if start + d > MAX_TIME then MAX_TIME + 1 else start + d
  }

  // ---------- nodes ----------

  function NodeIds(nodes: seq<NodeInfo>): (ids: seq<nat>)
    ensures |ids| == |nodes|
  {
    seq(|nodes|, i requires 0 <= i < |nodes| => nodes[i].id)
  }

  /** Ids of the data nodes that are not frozen, in node order. */
  function Available(nodes: seq<NodeInfo>, frozen: seq<nat>): (ids: seq<nat>) {
    if nodes == [] then []
    else
      var n := |nodes| - 1;
      Available(nodes[..n], frozen) + if nodes[n].id in frozen then [] else [nodes[n].id]
  }

  lemma LastIsNew(s: seq<nat>, x: nat)
    requires Distinct(s + [x])
    ensures Distinct(s) && x !in s
  {
    assert forall i :: 0 <= i < |s| ==> (s + [x])[i] == s[i] && (s + [x])[i] != (s + [x])[|s|];
  }

  lemma {:induction false} AvailableAre(nodes: seq<NodeInfo>, frozen: seq<nat>)
    ensures forall x :: x in Available(nodes, frozen) <==> x in NodeIds(nodes) && x !in frozen
    ensures Distinct(NodeIds(nodes)) ==> Distinct(Available(nodes, frozen))
  {
    if nodes != [] {
      var n := |nodes| - 1;
      AvailableAre(nodes[..n], frozen);
      assert NodeIds(nodes) == NodeIds(nodes[..n]) + [nodes[n].id];
      if Distinct(NodeIds(nodes)) {
        LastIsNew(NodeIds(nodes[..n]), nodes[n].id);
      }
    }
  }

  ghost predicate Increasing(ids: seq<nat>) {
    forall i, j :: 0 <= i < j < |ids| ==> ids[i] < ids[j]
  }

  /** They stay in the order of the nodes. */
  lemma {:induction false} AvailableInOrder(nodes: seq<NodeInfo>, frozen: seq<nat>)
    requires Increasing(NodeIds(nodes))
    ensures Increasing(Available(nodes, frozen))
  {
    if nodes != [] {
      var n := |nodes| - 1;
      var front := Available(nodes[..n], frozen);
      assert NodeIds(nodes[..n]) == NodeIds(nodes)[..n];
      AvailableInOrder(nodes[..n], frozen);
      AvailableAre(nodes[..n], frozen);
      forall i | 0 <= i < |front| ensures front[i] < nodes[n].id {
        assert front[i] in NodeIds(nodes[..n]);
        var k :| 0 <= k < n && NodeIds(nodes)[k] == front[i];
        assert NodeIds(nodes)[n] == nodes[n].id;
      }
    }
  }

  // ---------- dealing ----------

  /** The `k`-th deal lands on the node `k` places after the start, around the list. */
  function Dealt(avail: seq<nat>, base: nat, k: nat): (id: nat)
    requires avail != []
  {
    avail[(base + k) % |avail|]
  }

  function OwnersDealt(avail: seq<nat>, base: nat, replicaN: nat): (owners: seq<nat>)
    requires avail != []
    ensures |owners| == replicaN
  {
    seq(replicaN, j requires 0 <= j < replicaN => Dealt(avail, base, j))
  }

  /** `shardN` shards with consecutive ids, each with the next `replicaN` nodes. */
  function ShardsDealt(avail: seq<nat>, base: nat, replicaN: nat, firstId: nat, shardN: nat): (shards: seq<Shard>)
    requires avail != []
    ensures |shards| == shardN
  {
    if shardN == 0 then []
    else ShardsDealt(avail, base, replicaN, firstId, shardN - 1)
         + [Shard(firstId + shardN - 1, OwnersDealt(avail, base + (shardN - 1) * replicaN, replicaN))]
  }

  lemma {:induction false} ShardDealtAt(avail: seq<nat>, base: nat, replicaN: nat, firstId: nat, shardN: nat, i: nat)
    requires avail != [] && i < shardN
    ensures ShardsDealt(avail, base, replicaN, firstId, shardN)[i]
            == Shard(firstId + i, OwnersDealt(avail, base + i * replicaN, replicaN))
  {
    if i < shardN - 1 {
      ShardDealtAt(avail, base, replicaN, firstId, shardN - 1, i);
    }
  }

  lemma {:induction false} AtLeastOnce(m: nat, n: nat)
    requires m >= 1
    ensures m * n >= n
  {
    if m > 1 {
      AtLeastOnce(m - 1, n);
      assert m * n == (m - 1) * n + n;
    }
  }

  lemma Remainder(q: nat, n: nat, k: nat)
    requires k < n
    ensures (q * n + k) % n == k
  {
    var y := q * n + k;
    var p := y / n;
    assert y == p * n + y % n;
    assert (p - q) * n == p * n - q * n && (q - p) * n == q * n - p * n;
    if p > q {
      AtLeastOnce(p - q, n);
    } else if p < q {
      AtLeastOnce(q - p, n);
    }
  }

  /** Fewer steps than nodes never lead back to the same place. */
  lemma StepsApart(b: nat, j: nat, k: nat, n: nat)
    requires j < k < j + n
    ensures (b + j) % n != (b + k) % n
  {
    var p, q := (b + j) / n, (b + k) / n;
    assert b + j == p * n + (b + j) % n && b + k == q * n + (b + k) % n;
    assert q * n - p * n == (q - p) * n;
    if q > p {
      AtLeastOnce(q - p, n);
    } else {
      AtLeastOnce(p - q + 1, n);
      assert (p - q + 1) * n == (p - q) * n + n;
      assert (q - p) * n == -((p - q) * n);
    }
  }

  lemma DealsApart(avail: seq<nat>, base: nat, j: nat, k: nat)
    requires Distinct(avail) && j < k < j + |avail|
    ensures Dealt(avail, base, j) != Dealt(avail, base, k)
  {
    StepsApart(base, j, k, |avail|);
    var a, b := (base + j) % |avail|, (base + k) % |avail|;
    assert a < |avail| && b < |avail| && a != b;
    if a < b {
      assert avail[a] != avail[b];
    } else {
      assert avail[b] != avail[a];
    }
  }

  /** Owner `j` of shard `i` is deal `i * replicaN + j`. */
  lemma OwnerDealt(avail: seq<nat>, base: nat, replicaN: nat, firstId: nat, shardN: nat, i: nat, j: nat)
    requires avail != [] && i < shardN && j < replicaN
    ensures var owners := ShardsDealt(avail, base, replicaN, firstId, shardN)[i].owners;
            |owners| == replicaN && owners[j] == Dealt(avail, base, i * replicaN + j)
  {
    ShardDealtAt(avail, base, replicaN, firstId, shardN, i);
  }

  lemma DealBound(i: nat, j: nat, replicaN: nat, shardN: nat, n: nat)
    requires i < shardN && j < replicaN && shardN * replicaN <= n
    ensures i * replicaN + j < n
  {
    assert (i + 1) * replicaN <= shardN * replicaN;
    assert (i + 1) * replicaN == i * replicaN + replicaN;
  }

  lemma DealOrder(i: nat, j: nat, i': nat, j': nat, replicaN: nat)
    requires i < i' && j < replicaN
    ensures i * replicaN + j < i' * replicaN + j'
  {
    assert (i + 1) * replicaN <= i' * replicaN;
    assert (i + 1) * replicaN == i * replicaN + replicaN;
  }

  /** No node is dealt two shards of the group, or one shard twice. */
  ghost predicate EachNodeOnce(shards: seq<Shard>) {
    forall i, j, i', j' | 0 <= i < |shards| && 0 <= j < |shards[i].owners| &&
                          0 <= i' < |shards| && 0 <= j' < |shards[i'].owners| ::
      shards[i].owners[j] == shards[i'].owners[j'] ==> i == i' && j == j'
  }

  lemma DealtOnce(avail: seq<nat>, base: nat, replicaN: nat, firstId: nat, shardN: nat, i: nat, j: nat, i': nat, j': nat)
    requires avail != [] && Distinct(avail) && shardN * replicaN <= |avail|
    requires i < shardN && j < replicaN && i' < shardN && j' < replicaN
    requires i < i' || (i == i' && j < j')
    ensures var s := ShardsDealt(avail, base, replicaN, firstId, shardN);
            |s[i].owners| == replicaN == |s[i'].owners| && s[i].owners[j] != s[i'].owners[j']
  {
    ShardDealtAt(avail, base, replicaN, firstId, shardN, i);
    ShardDealtAt(avail, base, replicaN, firstId, shardN, i');
    OwnerDealt(avail, base, replicaN, firstId, shardN, i, j);
    OwnerDealt(avail, base, replicaN, firstId, shardN, i', j');
    DealBound(i', j', replicaN, shardN, |avail|);
    if i < i' {
      DealOrder(i, j, i', j', replicaN);
    }
    DealsApart(avail, base, i * replicaN + j, i' * replicaN + j');
  }

  /**
   Round robin: consecutive shard ids, each shard with exactly `replicaN` owners taken
   from the available nodes, and no node used twice in the whole group.
   */
  lemma RoundRobin(avail: seq<nat>, base: nat, replicaN: nat, firstId: nat, shardN: nat)
    requires avail != [] && Distinct(avail) && shardN * replicaN <= |avail|
    ensures var s := ShardsDealt(avail, base, replicaN, firstId, shardN);
            && (forall i :: 0 <= i < |s| ==> s[i].id == firstId + i && |s[i].owners| == replicaN)
            && (forall i, x :: 0 <= i < |s| && x in s[i].owners ==> x in avail)
            && EachNodeOnce(s)
  {
    hide ShardsDealt, Distinct;
    var s := ShardsDealt(avail, base, replicaN, firstId, shardN);
    forall i | 0 <= i < |s|
      ensures s[i].id == firstId + i && |s[i].owners| == replicaN
      ensures forall x :: x in s[i].owners ==> x in avail
    {
      ShardDealtAt(avail, base, replicaN, firstId, shardN, i);
    }
    forall i, j, i', j' |
      && 0 <= i < |s| && 0 <= j < |s[i].owners|
      && 0 <= i' < |s| && 0 <= j' < |s[i'].owners|
      && s[i].owners[j] == s[i'].owners[j']
      ensures i == i' && j == j'
    {
      if i < i' || (i == i' && j < j') {
        DealtOnce(avail, base, replicaN, firstId, shardN, i, j, i', j');
      } else if i' < i || (i == i' && j' < j) {
        DealtOnce(avail, base, replicaN, firstId, shardN, i', j', i, j);
      }
    }
  }
}
