/**
 The cluster metadata of services/meta/data.go as a value, and what each of its
 operations makes of it. Databases and their retention policies are one list of
 policies, in nesting order. Times are nanoseconds since the zero time, so 0 is "not
 set".
 */
module MetaModel {

  datatype NodeInfo = NodeInfo(id: nat, host: string, tcpHost: string)

  datatype Shard = Shard(id: nat, owners: seq<nat>)

  datatype Group = Group(id: nat, start: int, end: int, deletedAt: int, truncatedAt: int, shards: seq<Shard>) {
    predicate Deleted() {
      deletedAt != 0
    }

    predicate Contains(t: int) {
      start <= t < end
    }

    /** What `ShardGroupByTimestamp` accepts. */
    predicate Covers(t: int) {
      Contains(t) && !Deleted() && (truncatedAt == 0 || t < truncatedAt)
    }
  }

  datatype Policy = Policy(db: string, name: string, replicaN: int, groupDuration: int, groups: seq<Group>)

  datatype Meta = Meta(
    databases: set<string>,
    policies: seq<Policy>,
    metaNodes: seq<NodeInfo>,
    dataNodes: seq<NodeInfo>,
    frozen: seq<nat>,
    maxNodeID: nat,
    maxGroupID: nat,
    maxShardID: nat,
    index: nat)

  datatype Err =
    | OK
    | NodeExists | NodeIDRequired | NodeNotFound | NodeNotFreezed | NodeAlreadyFreezed
    | DatabaseNotFound | PolicyNotFound | GroupNotFound
    | NoReplica | NoNewOwner | Panic

  // ---------- lists ----------

  /** First index of `x`, or the length. */
  function IndexOf(s: seq<nat>, x: nat): (i: nat)
    ensures i <= |s|
    ensures i < |s| ==> s[i] == x
    ensures x !in s[..i]
    ensures i == |s| <==> x !in s
  {
    if s == [] then 0
    else if s[0] == x then 0
    else
      var i := 1 + IndexOf(s[1..], x);
      assert s[..i] == [s[0]] + s[1..][..i - 1];
      i
  }

  /** The slice idiom `append(s[:i], s[i+1:]...)`. */
  function RemoveAt<T>(s: seq<T>, i: nat): (r: seq<T>)
    requires i < |s|
  {
    s[..i] + s[i + 1..]
  }

  ghost predicate Distinct<T>(s: seq<T>) {
    forall i, j :: 0 <= i < j < |s| ==> s[i] != s[j]
  }

  /** `owners` without the last occurrence of `id`. */
  function WithoutLast(owners: seq<nat>, id: nat): (r: seq<nat>) {
    if owners == [] then []
    else
      var n := |owners| - 1;
      if owners[n] == id then owners[..n] else WithoutLast(owners[..n], id) + [owners[n]]
  }

  // ---------- who owns how much ----------

  /** How often `n` is an owner in `shards`. */
  function Freq(shards: seq<Shard>, n: nat): (k: nat) {
    if shards == [] then 0
    else Freq(shards[..|shards| - 1], n) + multiset(shards[|shards| - 1].owners)[n]
  }

  /** Counts by node; nodes that own nothing are absent, as in the map the original builds. */
  ghost predicate IsFreqMap(m: map<nat, nat>, shards: seq<Shard>) {
    forall n: nat :: (n in m <==> Freq(shards, n) > 0) && (n in m ==> m[n] == Freq(shards, n))
  }

  /** `a` comes before `b` in the order `newShardOwner` sorts by: fewer shards, then smaller id. */
  predicate Before(m: map<nat, nat>, a: nat, b: nat)
    requires a in m && b in m
  {
    m[a] < m[b] || (m[a] == m[b] && a < b)
  }

  ghost predicate IsLeast(m: map<nat, nat>, a: nat) {
    a in m && forall b :: b in m && b != a ==> Before(m, a, b)
  }

  lemma {:induction false} LeastExists(m: map<nat, nat>, keys: set<nat>) returns (a: nat)
    requires keys != {} && keys <= m.Keys
    ensures a in keys && forall b :: b in keys && b != a ==> Before(m, a, b)
    decreases keys
  {
    var x :| x in keys;
    var rest := keys - {x};
    if rest == {} {
      assert keys == {x};
      a := x;
    } else {
      var c := LeastExists(m, rest);
      a := if Before(m, c, x) then c else x;
      assert forall b :: b in keys ==> b == x || b in rest;
    }
  }

  /** The result of `newShardOwner`: 0 without candidates, else the one candidate before all others. */
  ghost function LeastLoaded(m: map<nat, nat>): (a: nat)
    ensures m.Keys == {} ==> a == 0
    ensures m.Keys != {} ==> IsLeast(m, a)
  {
    if m.Keys == {} then 0
    else
      assert exists a: nat :: IsLeast(m, a) by { var a := LeastExists(m, m.Keys); assert IsLeast(m, a); }
      var a: nat :| IsLeast(m, a);
      a
  }

  /** Any way of finding it gives the same node. */
  lemma LeastUnique(m: map<nat, nat>, a: nat, b: nat)
    requires IsLeast(m, a) && IsLeast(m, b)
    ensures a == b
  {
  }
}
