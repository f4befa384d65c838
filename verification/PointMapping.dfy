/**
 Mapping the points of a write to shards (coordinator/points_writer.go): the sorted list
 of shard groups with its binary search, the shard mapping with its slice capacities, and
 `MapShards` over both.
 */
module PointMapping {
  import opened Bytes
  import opened Lists
  import opened MetaModel
  import opened MetaOps
  import opened Placement

  datatype Point = Point(time: int, hash: nat, body: nat)

  // ---------- the list of groups ----------

  predicate Apart(a: Group, b: Group) {
    a == b || a.end <= b.start || b.end <= a.start
  }

  /** Untruncated, non-empty groups, any two the same or disjoint. */
  ghost predicate Consistent(l: seq<Group>) {
    && (forall g :: g in l ==> g.truncatedAt == 0 && g.start < g.end && g.shards != [])
    && (forall a, b :: a in l && b in l ==> Apart(a, b))
  }

  ghost predicate SgList(l: seq<Group>) {
    Consistent(l) && Sorted(l, GroupLess)
  }

  /** Reference lookup: the first group of the list that contains the time, or the length. */
  function Scan(l: seq<Group>, t: int): (i: nat)
    ensures i <= |l|
    ensures i < |l| ==> l[i].Contains(t)
    ensures forall k :: 0 <= k < i ==> !l[k].Contains(t)
  {
    if l == [] then 0
    else
      var i := Scan(l[..|l| - 1], t);
      if i < |l| - 1 then i else if l[|l| - 1].Contains(t) then i else |l|
  }

  /** Where `sort.Search` for a group that ends after `t` gets to between `i` and `j`, whatever the list. */
  function Find(l: seq<Group>, t: int, i: nat, j: nat): (r: nat)
    requires i <= j <= |l|
    ensures i <= r <= j
    decreases j - i
  {
    if i == j then i
    else
      var h := (i + j) / 2;
      if l[h].end <= t then Find(l, t, h + 1, j) else Find(l, t, i, h)
  }

  method Search(l: seq<Group>, t: int) returns (i: nat)
    ensures i == Find(l, t, 0, |l|)
  {
    i := 0;
    var j := |l|;
    while i < j
      invariant 0 <= i <= j <= |l|
      invariant Find(l, t, i, j) == Find(l, t, 0, |l|)
    {
      var h := (i + j) / 2;
      if l[h].end <= t {
        i := h + 1;
      } else {
        j := h;
      }
    }
  }

  lemma FindStep(l: seq<Group>, t: int, i: nat, j: nat) returns (h: nat)
    requires i < j <= |l|
    ensures i <= h < j
    ensures Find(l, t, i, j) == if l[h].end <= t then Find(l, t, h + 1, j) else Find(l, t, i, h)
  {
    h := (i + j) / 2;
  }

  lemma FindNothing(l: seq<Group>, t: int, i: nat)
    requires i <= |l|
    ensures Find(l, t, i, i) == i
  {
  }

  /** It stops at a group that ends after `t`, right behind one that does not. */
  lemma {:induction false} FindBoundary(l: seq<Group>, t: int, i: nat, j: nat)
    requires i <= j <= |l|
    requires (i > 0 ==> l[i - 1].end <= t) && (j < |l| ==> l[j].end > t)
    ensures var r := Find(l, t, i, j);
            (r > 0 ==> l[r - 1].end <= t) && (r < |l| ==> l[r].end > t)
    decreases j - i
  {
    hide Find;
    if i < j {
      var h := FindStep(l, t, i, j);
      if l[h].end <= t {
        FindBoundary(l, t, h + 1, j);
      } else {
        FindBoundary(l, t, i, h);
      }
    } else {
      FindNothing(l, t, i);
    }
  }

  /** The group a time is looked up to. */
  function Lookup(l: seq<Group>, t: int): (r: Option<Group>) {
    var i := Find(l, t, 0, |l|);
    if i == |l| || t < l[i].start then None else Some(l[i])
  }

  /** In any list: what is found is in the list and contains the time. */
  lemma LookupContains(l: seq<Group>, t: int)
    ensures Lookup(l, t).Some? ==> Lookup(l, t).value in l && Lookup(l, t).value.Contains(t)
  {
    FindBoundary(l, t, 0, |l|);
  }

  lemma EndsAscend(l: seq<Group>)
    requires SgList(l)
    ensures forall a, b :: 0 <= a < b < |l| ==> l[a].end <= l[b].end
  {
    forall a, b | 0 <= a < b < |l| ensures l[a].end <= l[b].end {
      assert l[a] in l && l[b] in l;
      assert !GroupLess(l[b], l[a]);
    }
  }

  /** The position the search stops at decides for the whole list. */
  lemma SearchDecides(l: seq<Group>, t: int)
    requires SgList(l)
    ensures var i := Find(l, t, 0, |l|);
            Scan(l, t) == if i == |l| || t < l[i].start then |l| else i
  {
    hide Find;
    EndsAscend(l);
    FindBoundary(l, t, 0, |l|);
    var i := Find(l, t, 0, |l|);
    if i < |l| && t < l[i].start {
      forall k | i < k < |l| ensures !l[k].Contains(t) {
        assert l[i] in l && l[k] in l;
        assert Apart(l[i], l[k]);
      }
    }
  }

  method ShardGroupAt(l: seq<Group>, t: int) returns (r: Option<Group>)
    ensures r == Lookup(l, t)
    ensures r.Some? ==> r.value in l && r.value.Contains(t)
    ensures SgList(l) ==> r == if Scan(l, t) == |l| then None else Some(l[Scan(l, t)])
  {
    hide Find;
    LookupContains(l, t);
    if SgList(l) {
      SearchDecides(l, t);
    }
    var i := Search(l, t);
    if i == |l| || t < l[i].start {
      return None;
    }
    return Some(l[i]);
  }

  predicate Covered(l: seq<Group>, t: int) {
    Lookup(l, t).Some?
  }

  lemma CoveredMeans(l: seq<Group>, t: int)
    ensures Covered(l, t) ==> exists g :: g in l && g.Contains(t)
    ensures SgList(l) ==> (Covered(l, t) <==> exists g :: g in l && g.Contains(t))
  {
    hide Find;
    LookupContains(l, t);
    if SgList(l) {
      SearchDecides(l, t);
    }
  }

  method Covers(l: seq<Group>, t: int) returns (yes: bool)
    ensures yes == Covered(l, t)
    ensures SgList(l) ==> (yes <==> exists g :: g in l && g.Contains(t))
  {
    CoveredMeans(l, t);
    if |l| == 0 {
      return false;
    }
    var r := ShardGroupAt(l, t);
    return r != None;
  }

  lemma GroupOrdering()
    ensures Ordering(GroupLess)
  {
  }

  method Append(l: seq<Group>, g: Group) returns (r: seq<Group>)
    ensures r == Sort(l + [g], GroupLess) && Sorted(r, GroupLess) && forall x :: x in r <==> x in l || x == g
    ensures Consistent(l + [g]) ==> SgList(r)
  {
    r := Sort(l + [g], GroupLess);
    GroupOrdering();
    SortSorts(l + [g], GroupLess);
    forall x ensures x in r <==> x in l || x == g {
      SortMember(l + [g], GroupLess, x);
    }
    if Consistent(l + [g]) {
      ConsistentMembers(l + [g], r);
    }
  }

  lemma ConsistentMembers(l: seq<Group>, r: seq<Group>)
    requires Consistent(l) && forall x :: x in r <==> x in l
    ensures Consistent(r)
  {
  }

  // ---------- overlapping groups ----------

  ghost predicate Ascending(l: seq<Group>) {
    forall a, b :: 0 <= a < b < |l| ==> l[a].end <= l[b].end
  }

  /** A time that the search gives to group `i`, which begins later, although group `j` behind it contains it. */
  predicate Hides(l: seq<Group>, i: nat, j: nat, t: int)
    requires i < j < |l|
  {
    (i > 0 ==> l[i - 1].end <= t) && t < l[i].end && t < l[i].start && l[j].start <= t
  }

  /** Some group of the list hides another one that contains the time. */
  ghost predicate Hidden(l: seq<Group>, t: int) {
    exists i: nat, j: nat :: i < j < |l| && Hides(l, i, j, t)
  }

  lemma FindIs(l: seq<Group>, t: int, i: nat)
    requires Ascending(l) && i < |l| && (i > 0 ==> l[i - 1].end <= t) && l[i].end > t
    ensures Find(l, t, 0, |l|) == i
  {
    hide Find;
    FindBoundary(l, t, 0, |l|);
  }

  /** In a list sorted by end, a lookup misses a group that contains the time exactly when an earlier one hides it. */
  lemma MissedExact(l: seq<Group>, t: int)
    requires Ascending(l)
    ensures Lookup(l, t) == None && Scan(l, t) < |l| <==> Hidden(l, t)
  {
    hide Find;
    FindBoundary(l, t, 0, |l|);
    if Lookup(l, t) == None && Scan(l, t) < |l| {
      assert Hides(l, Find(l, t, 0, |l|), Scan(l, t), t);
    }
    if i: nat, j: nat :| i < j < |l| && Hides(l, i, j, t) {
      FindIs(l, t, i);
      assert l[j].Contains(t);
    }
  }

  // ---------- routing ----------

  ghost predicate Sharded(l: seq<Group>) {
    forall g :: g in l ==> g.shards != []
  }

  /** `ShardFor`. */
  function ShardFor(g: Group, hash: nat): (s: Shard)
    requires g.shards != []
    ensures s in g.shards
  {
    g.shards[hash % |g.shards|]
  }

  /** Every shard of a group gets its share: the hashes with its position as remainder. */
  lemma ShardForExact(g: Group, q: nat, k: nat)
    requires k < |g.shards|
    ensures ShardFor(g, q * |g.shards| + k) == g.shards[k]
  {
    Remainder(q, |g.shards|, k);
  }

  /** Where a point goes, if anywhere. */
  ghost function Route(l: seq<Group>, p: Point): (r: Option<Shard>)
    requires Sharded(l)
  {
    LookupContains(l, p.time);
    if Lookup(l, p.time) == None then None else Some(ShardFor(Lookup(l, p.time).value, p.hash))
  }

  ghost predicate GoesTo(l: seq<Group>, p: Point, id: nat)
    requires Sharded(l)
  {
    Route(l, p).Some? && Route(l, p).value.id == id
  }

  /** The points of one shard, in request order. */
  ghost function ToShard(ps: seq<Point>, l: seq<Group>, id: nat): (r: seq<Point>)
    requires Sharded(l)
  {
    if ps == [] then []
    else
      var n := |ps| - 1;
      ToShard(ps[..n], l, id) + if GoesTo(l, ps[n], id) then [ps[n]] else []
  }

  ghost function Unrouted(ps: seq<Point>, l: seq<Group>): (r: seq<Point>)
    requires Sharded(l)
  {
    if ps == [] then []
    else
      var n := |ps| - 1;
      Unrouted(ps[..n], l) + if Route(l, ps[n]) == None then [ps[n]] else []
  }

  lemma {:induction false} ToShardCount(ps: seq<Point>, l: seq<Group>, id: nat, p: Point)
    requires Sharded(l)
    ensures multiset(ToShard(ps, l, id))[p] == if GoesTo(l, p, id) then multiset(ps)[p] else 0
  {
    hide GoesTo;
    if ps != [] {
      var n := |ps| - 1;
      ToShardCount(ps[..n], l, id, p);
      assert ps == ps[..n] + [ps[n]];
    }
  }

  lemma {:induction false} UnroutedCount(ps: seq<Point>, l: seq<Group>, p: Point)
    requires Sharded(l)
    ensures multiset(Unrouted(ps, l))[p] == if Route(l, p) == None then multiset(ps)[p] else 0
  {
    hide Route;
    if ps != [] {
      var n := |ps| - 1;
      UnroutedCount(ps[..n], l, p);
      assert ps == ps[..n] + [ps[n]];
    }
  }

  /** Every occurrence of a point is in exactly one place: one shard's list, or the dropped points. */
  lemma EachPointOnce(ps: seq<Point>, l: seq<Group>, p: Point, id: nat)
    requires Sharded(l)
    ensures Route(l, p) == None ==>
      multiset(Unrouted(ps, l))[p] == multiset(ps)[p] && multiset(ToShard(ps, l, id))[p] == 0
    ensures Route(l, p).Some? ==>
      multiset(Unrouted(ps, l))[p] == 0 &&
      multiset(ToShard(ps, l, id))[p] == if id == Route(l, p).value.id then multiset(ps)[p] else 0
  {
    hide Route;
    UnroutedCount(ps, l, p);
    ToShardCount(ps, l, id, p);
  }

  // ---------- the mapping ----------

  /** A Go slice: its elements and its capacity. */
  datatype Slice = Slice(data: seq<Point>, capacity: nat)

  class ShardMapping {
    var n: nat
    var points: map<nat, Slice>
    var shards: map<nat, Shard>
    var dropped: seq<Point>

    ghost predicate Valid()
      reads this
    {
      && points.Keys == shards.Keys
      && (forall id :: id in points ==> points[id].capacity >= n && points[id].capacity >= |points[id].data| > 0)
      && (forall id :: id in shards ==> shards[id].id == id)
    }

    ghost function PointsOf(id: nat): (r: seq<Point>)
      reads this
    {
      if id in points then points[id].data else []
    }

    constructor (n: nat)
      ensures Valid() && this.n == n && points == map[] && shards == map[] && dropped == []
    {
      this.n, points, shards, dropped := n, map[], map[], [];
    }

    /** The slice is replaced by an empty one when its capacity is too small; no point is lost by that. */
    method MapPoint(sh: Shard, p: Point)
      requires Valid()
      modifies this`points, this`shards
      ensures Valid()
      ensures PointsOf(sh.id) == old(PointsOf(sh.id)) + [p]
      ensures forall id :: id != sh.id ==> PointsOf(id) == old(PointsOf(id))
      ensures points.Keys == old(points.Keys) + {sh.id} && shards == old(shards)[sh.id := sh]
    {
      var slice := if sh.id in points then points[sh.id] else Slice([], 0);
      if slice.capacity < n {
        slice := Slice([], n);
      }
      slice := GoAppend(slice, p);
      points := points[sh.id := slice];
      shards := shards[sh.id := sh];
    }

    /** `append`: a full slice moves to some larger one. */
    static method GoAppend(s: Slice, p: Point) returns (r: Slice)
      requires |s.data| <= s.capacity
      ensures r.data == s.data + [p] && r.capacity >= s.capacity && r.capacity >= |r.data|
    {
      if |s.data| < s.capacity {
        return Slice(s.data + [p], s.capacity);
      }
      var c: nat :| c > s.capacity;
      return Slice(s.data + [p], c);
    }
  }

  // ---------- MapShards ----------

  /** No group of the metadata is without shards; choosing one of them would divide by zero. */
  ghost predicate Choosable(create: int -> Option<Group>) {
    forall t :: create(t).Some? ==> create(t).value.shards != []
  }

  /** A group that is handed out contains the time it was asked for; `None` is an error or no group at all. */
  ghost predicate Reaching(create: int -> Option<Group>) {
    forall t :: create(t).Some? ==> create(t).value.Contains(t) && create(t).value.truncatedAt == 0
  }

  /** The metadata's answers as they should be. */
  ghost predicate Honest(create: int -> Option<Group>) {
    && Reaching(create)
    && (forall t, u :: create(t).Some? && create(u).Some? ==> Apart(create(t).value, create(u).value))
  }

  ghost predicate Known(create: int -> Option<Group>, l: seq<Group>) {
    forall g :: g in l ==> exists t :: create(t) == Some(g)
  }

  lemma KnownConsistent(create: int -> Option<Group>, l: seq<Group>)
    requires Honest(create) && Choosable(create) && Known(create, l)
    ensures Consistent(l)
  {
    forall a, b | a in l && b in l ensures Apart(a, b) && a.truncatedAt == 0 && a.start < a.end && a.shards != [] {
      var t :| create(t) == Some(a);
      var u :| create(u) == Some(b);
    }
  }

  /** The list of groups a request is mapped with; None when one could not be had. */
  ghost function Gathered(ps: seq<Point>, min: int, create: int -> Option<Group>): (r: Option<seq<Group>>) {
    if ps == [] then Some([])
    else
      var n := |ps| - 1;
      var front, t := Gathered(ps[..n], min, create), ps[n].time;
      if front.None? || t < min || Covered(front.value, t) then front
      else if create(t).None? then None
      else Some(Sort(front.value + [create(t).value], GroupLess))
  }

  lemma {:induction false} StaysUngathered(ps: seq<Point>, min: int, create: int -> Option<Group>, i: nat)
    requires i <= |ps| && Gathered(ps[..i], min, create).None?
    ensures Gathered(ps, min, create).None?
    decreases |ps| - i
  {
    if i == |ps| {
      assert ps[..i] == ps;
    } else {
      assert ps[..i + 1][..i] == ps[..i];
      StaysUngathered(ps, min, create, i + 1);
    }
  }

  /** The groups needed for the points that are not older than `min`. */
  method GroupsFor(ps: seq<Point>, min: int, create: int -> Option<Group>) returns (ok: bool, l: seq<Group>)
    requires Choosable(create)
    ensures Gathered(ps, min, create) == if ok then Some(l) else None
    ensures Known(create, l) && Sorted(l, GroupLess)
    ensures !ok ==> exists p :: p in ps && p.time >= min && create(p.time) == None
    ensures Honest(create) ==> SgList(l)
    ensures Honest(create) && ok ==> forall p :: p in ps && p.time >= min ==> Covered(l, p.time)
  {
    hide SgList, Consistent, Honest, Lookup, Sorted, Choosable, Gathered;
    ok, l := true, [];
    NoGroups();
    NoneGathered(ps, min, create);
    for i := 0 to |ps|
      invariant Gathered(ps[..i], min, create) == Some(l)
      invariant Known(create, l) && Sorted(l, GroupLess)
      invariant Honest(create) ==> SgList(l)
      invariant Honest(create) ==> forall p :: p in ps[..i] && p.time >= min ==> Covered(l, p.time)
    {
      var p := ps[i];
      assert ps[..i + 1] == ps[..i] + [p];
      GatheredNext(ps, min, create, i);
      if p.time >= min {
        var yes := Covers(l, p.time);
        if !yes {
          var sg := create(p.time);
          if sg == None {
            assert p in ps;
            StaysUngathered(ps, min, create, i + 1);
            return false, l;
          }
          var r := Append(l, sg.value);
          if Honest(create) {
            KnownConsistent(create, l + [sg.value]);
            StillCovered(l, r);
            ContainsOwn(create, p.time);
            CoveredMeans(r, p.time);
          }
          l := r;
        }
      }
    }
    assert ps[..|ps|] == ps;
  }

  lemma NoneGathered(ps: seq<Point>, min: int, create: int -> Option<Group>)
    ensures Gathered(ps[..0], min, create) == Some([])
  {
  }

  lemma GatheredNext(ps: seq<Point>, min: int, create: int -> Option<Group>, i: nat)
    requires i < |ps|
    ensures var front, t := Gathered(ps[..i], min, create), ps[i].time;
            Gathered(ps[..i + 1], min, create) ==
              if front.None? || t < min || Covered(front.value, t) then front
              else if create(t).None? then None
              else Some(Sort(front.value + [create(t).value], GroupLess))
  {
    hide Sort, Covered;
    assert ps[..i + 1][..i] == ps[..i];
  }

  /** Answers that stay as they were once they are given lead to the same list. */
  lemma {:induction false} GatheredStays(ps: seq<Point>, min: int, create: int -> Option<Group>, later: int -> Option<Group>)
    requires Gathered(ps, min, create).Some? && forall t :: create(t).Some? ==> later(t) == create(t)
    ensures Gathered(ps, min, later) == Gathered(ps, min, create)
  {
    hide Sort, Covered;
    if ps != [] {
      GatheredStays(ps[..|ps| - 1], min, create, later);
    }
  }

  lemma NoGroups()
    ensures SgList([]) && Sorted([], GroupLess)
  {
  }

  lemma ContainsOwn(create: int -> Option<Group>, t: int)
    requires Honest(create) && create(t).Some?
    ensures create(t).value.Contains(t)
  {
  }

  lemma StillCovered(l: seq<Group>, r: seq<Group>)
    requires SgList(l) && SgList(r) && forall x :: x in l ==> x in r
    ensures forall t :: Covered(l, t) ==> Covered(r, t)
  {
    hide Covered;
    forall t | Covered(l, t) ensures Covered(r, t) {
      CoveredMeans(l, t);
      CoveredMeans(r, t);
    }
  }

  lemma KnownSharded(create: int -> Option<Group>, l: seq<Group>)
    requires Choosable(create) && Known(create, l)
    ensures Sharded(l)
  {
  }

  /** The mapping holds the points `ps`: by shard in order, the others dropped. */
  ghost predicate Mapped(m: ShardMapping, ps: seq<Point>, l: seq<Group>)
    requires Sharded(l)
    reads m
  {
    && m.Valid()
    && m.dropped == Unrouted(ps, l)
    && (forall id :: m.PointsOf(id) == ToShard(ps, l, id))
    && Routed(m.shards, ps, l)
  }

  lemma ToShardSnoc(ps: seq<Point>, l: seq<Group>, p: Point, id: nat)
    requires Sharded(l)
    ensures ToShard(ps + [p], l, id) == if GoesTo(l, p, id) then ToShard(ps, l, id) + [p] else ToShard(ps, l, id)
  {
    hide GoesTo;
    assert (ps + [p])[..|ps|] == ps;
  }

  lemma UnroutedSnoc(ps: seq<Point>, l: seq<Group>, p: Point)
    requires Sharded(l)
    ensures Unrouted(ps + [p], l) == if Route(l, p) == None then Unrouted(ps, l) + [p] else Unrouted(ps, l)
  {
    hide Route;
    assert (ps + [p])[..|ps|] == ps;
  }

  /** One pass of the second loop. */
  method MapOne(m: ShardMapping, groups: seq<Group>, p: Point, ghost before: seq<Point>)
    requires Sharded(groups) && Mapped(m, before, groups)
    modifies m
    ensures Mapped(m, before + [p], groups)
  {
    hide SgList, Route, Routed, ToShard, Unrouted;
    forall id ensures ToShard(before + [p], groups, id) ==
                      if GoesTo(groups, p, id) then ToShard(before, groups, id) + [p] else ToShard(before, groups, id)
    {
      ToShardSnoc(before, groups, p, id);
    }
    UnroutedSnoc(before, groups, p);
    RouteIs(groups, p);
    RoutedMore(m.shards, before, groups, p);
    var sg := ShardGroupAt(groups, p.time);
    if sg == None {
      m.dropped := m.dropped + [p];
    } else {
      ShardedSome(groups, sg.value);
      var sh := ShardFor(sg.value, p.hash);
      RoutedAdd(m.shards, before + [p], groups, p, sh);
      m.MapPoint(sh, p);
    }
  }

  // ---------- overlapping groups in a request ----------

  lemma KnownAscend(create: int -> Option<Group>, l: seq<Group>)
    requires Reaching(create) && Known(create, l) && Sorted(l, GroupLess)
    ensures Ascending(l)
  {
    forall a, b | 0 <= a < b < |l| ensures l[a].end <= l[b].end {
      assert l[a] in l && l[b] in l;
      assert !GroupLess(l[b], l[a]);
    }
  }

  /** Whatever is listed stays listed, so a time once contained stays so. */
  lemma {:induction false} GatheredContain(ps: seq<Point>, min: int, create: int -> Option<Group>, p: Point)
    requires Reaching(create) && Gathered(ps, min, create).Some? && p in ps && p.time >= min
    ensures exists g :: g in Gathered(ps, min, create).value && g.Contains(p.time)
  {
    hide Gathered, Sort, Lookup, Covered;
    var n := |ps| - 1;
    assert ps == ps[..n] + [ps[n]] && ps[..|ps|] == ps;
    GatheredNext(ps, min, create, n);
    var front := Gathered(ps[..n], min, create).value;
    var l := Gathered(ps, min, create).value;
    forall x ensures x in front ==> x in l {
      GatheredMore(front, create, ps[n].time, x);
    }
    if p in ps[..n] {
      GatheredContain(ps[..n], min, create, p);
      var g :| g in front && g.Contains(p.time);
      assert g in l;
    } else if Covered(front, p.time) {
      CoveredMeans(front, p.time);
    } else {
      GatheredMore(front, create, p.time, create(p.time).value);
    }
  }

  /** With metadata as it should be no group is asked for twice. */
  lemma {:induction false} GatheredOnce(ps: seq<Point>, min: int, create: int -> Option<Group>, g: Group)
    requires Honest(create) && Choosable(create) && Gathered(ps, min, create).Some?
    ensures multiset(Gathered(ps, min, create).value)[g] <= 1
    ensures SgList(Gathered(ps, min, create).value) && Known(create, Gathered(ps, min, create).value)
  {
    hide Gathered, Sort, Covered, SgList, Choosable;
    if ps == [] {
      NoneGathered(ps, min, create);
      assert ps[..0] == ps;
      NoGroups();
    } else {
      var n := |ps| - 1;
      assert ps[..|ps|] == ps;
      GatheredNext(ps, min, create, n);
      GatheredOnce(ps[..n], min, create, g);
      var front, t := Gathered(ps[..n], min, create).value, ps[n].time;
      if t >= min && !Covered(front, t) {
        var h := create(t).value;
        OneMoreGroup(create, front, t);
        SortCount(front + [h], GroupLess, g);
        NewToList(create, front, t);
      }
    }
  }

  lemma OneMoreGroup(create: int -> Option<Group>, front: seq<Group>, t: int)
    requires Honest(create) && Choosable(create) && Known(create, front) && create(t).Some?
    ensures var l := Sort(front + [create(t).value], GroupLess); SgList(l) && Known(create, l)
  {
    hide Sort, Honest, Choosable;
    var h := create(t).value;
    var l := Sort(front + [h], GroupLess);
    forall x ensures x in l <==> x in front || x == h {
      GatheredMore(front, create, t, x);
    }
    GroupOrdering();
    SortSorts(front + [h], GroupLess);
    KnownConsistent(create, l);
  }

  lemma NewToList(create: int -> Option<Group>, front: seq<Group>, t: int)
    requires Honest(create) && SgList(front) && create(t).Some? && !Covered(front, t)
    ensures create(t).value !in front
  {
    hide SgList, Covered;
    ContainsOwn(create, t);
    CoveredMeans(front, t);
  }

  lemma GatheredMore(front: seq<Group>, create: int -> Option<Group>, t: int, x: Group)
    ensures create(t).Some? ==>
              (x in Sort(front + [create(t).value], GroupLess) <==> x in front || x == create(t).value)
  {
    if create(t).Some? {
      SortMember(front + [create(t).value], GroupLess, x);
    }
  }

  /** A point that is not older than the limit is dropped if and only if a listed group hides the one that contains it. */
  lemma DroppedExact(ps: seq<Point>, min: int, create: int -> Option<Group>, l: seq<Group>, p: Point)
    requires Reaching(create) && Gathered(ps, min, create) == Some(l) && Known(create, l) && Sorted(l, GroupLess) && Sharded(l)
    requires p in ps && p.time >= min
    ensures p in Unrouted(ps, l) <==> Hidden(l, p.time)
  {
    hide Gathered, Hidden, Find, Unrouted, Route, Reaching, Known, Sorted;
    KnownAscend(create, l);
    GatheredContain(ps, min, create, p);
    MissedExact(l, p.time);
    UnroutedCount(ps, l, p);
    RouteIs(l, p);
  }

  /** Groups that a changed group duration leaves behind, in stored order. */
  const NARROW := Group(1, 10, 20, 0, 0, [Shard(1, [1])])
  const WIDE := Group(2, 0, 30, 0, 0, [Shard(2, [1])])

  function Overlapping(t: int): (r: Option<Group>) {
    Answer([NARROW, WIDE], t)
  }

  lemma OverlapAnswers(t: int)
    ensures Overlapping(t) == if 10 <= t < 20 then Some(NARROW) else if 0 <= t < 30 then Some(WIDE) else None
  {
    var l := [NARROW, WIDE];
    assert l[0] == NARROW && l[1] == WIDE;
    AnswerExact(l, t);
  }

  /** Points at 15, 25 and 5, none too old: the last one is in a stored and listed group and is dropped. */
  lemma HiddenPointDropped(a: Point, b: Point, c: Point)
    requires a.time == 15 && b.time == 25 && c.time == 5
    ensures Reaching(Overlapping) && Choosable(Overlapping) && Gathered([a, b, c], 0, Overlapping) == Some([NARROW, WIDE, WIDE])
    ensures Hidden([NARROW, WIDE, WIDE], 5)
    ensures Sharded([NARROW, WIDE, WIDE]) && Unrouted([a, b, c], [NARROW, WIDE, WIDE]) == [c]
  {
    hide Gathered, Overlapping;
    forall t ensures Overlapping(t) == if 10 <= t < 20 then Some(NARROW) else if 0 <= t < 30 then Some(WIDE) else None {
      OverlapAnswers(t);
    }
    ListGrows([a, b, c]);
    assert Hides([NARROW, WIDE, WIDE], 0, 1, 5);
    OnlyLastDropped(a, b, c);
  }

  lemma {:induction false} ListGrows(ps: seq<Point>)
    requires |ps| == 3 && ps[0].time == 15 && ps[1].time == 25 && ps[2].time == 5
    requires forall t :: Overlapping(t) == if 10 <= t < 20 then Some(NARROW) else if 0 <= t < 30 then Some(WIDE) else None
    ensures Gathered(ps, 0, Overlapping) == Some([NARROW, WIDE, WIDE])
  {
    hide Gathered, Overlapping, Sort;
    assert ps[..3] == ps;
    NoneGathered(ps, 0, Overlapping);
    GatheredNext(ps, 0, Overlapping, 0);
    GatheredNext(ps, 0, Overlapping, 1);
    GatheredNext(ps, 0, Overlapping, 2);
    SortedLists();
  }

  lemma SortedLists()
    ensures Sort([] + [NARROW], GroupLess) == [NARROW] && Sort([NARROW] + [WIDE], GroupLess) == [NARROW, WIDE]
    ensures Sort([NARROW, WIDE] + [WIDE], GroupLess) == [NARROW, WIDE, WIDE]
  {
    hide Sort;
    assert [] + [NARROW] == [NARROW] && [NARROW] + [WIDE] == [NARROW, WIDE] && [NARROW, WIDE] + [WIDE] == [NARROW, WIDE, WIDE];
    SortNone(GroupLess);
    SortKeepsLast([], NARROW, GroupLess);
    SortKeepsLast([NARROW], WIDE, GroupLess);
    SortKeepsLast([NARROW, WIDE], WIDE, GroupLess);
  }

  lemma OnlyLastDropped(a: Point, b: Point, c: Point)
    requires a.time == 15 && b.time == 25 && c.time == 5
    ensures Sharded([NARROW, WIDE, WIDE]) && Unrouted([a, b, c], [NARROW, WIDE, WIDE]) == [c]
  {
    hide Find;
    var l := [NARROW, WIDE, WIDE];
    FindIs(l, 15, 0);
    FindIs(l, 25, 1);
    FindIs(l, 5, 0);
    assert [a, b, c][..2] == [a, b] && [a, b][..1] == [a] && [a][..0] == [];
    assert Unrouted([a], l) == [] && Unrouted([a, b], l) == [];
  }

  /**
   `MapShards`: each point is in its shard's list, in request order, or dropped because it is
   not found in the list of groups. With metadata as it should be, that is exactly when no
   group in the list contains its time, and nothing newer than the limit is dropped.
   */
  method MapShards(ps: seq<Point>, min: int, create: int -> Option<Group>)
    returns (ok: bool, m: ShardMapping, ghost l: seq<Group>)
    requires Choosable(create)
    ensures fresh(m) && Known(create, l) && Sharded(l)
    ensures !ok ==> exists p :: p in ps && p.time >= min && create(p.time) == None
    ensures ok ==> Mapped(m, ps, l)
    ensures ok ==> Gathered(ps, min, create) == Some(l)
    ensures ok && Reaching(create) ==> forall p :: p in ps && p.time >= min ==> (p in m.dropped <==> Hidden(l, p.time))
    ensures Honest(create) ==> SgList(l)
    ensures Honest(create) && ok ==> forall p :: p in m.dropped ==> p.time < min && p in ps
  {
    hide SgList, Honest, Known, Mapped, Sharded, Choosable, Sorted, Reaching, Gathered, Hidden;
    var groups;
    ok, groups := GroupsFor(ps, min, create);
    l := groups;
    KnownSharded(create, l);
    m := new ShardMapping(|ps|);
    if !ok {
      return;
    }
    NothingMapped(m, l);
    for i := 0 to |ps|
      invariant fresh(m) && Mapped(m, ps[..i], l)
    {
      assert ps[..i + 1] == ps[..i] + [ps[i]];
      MapOne(m, groups, ps[i], ps[..i]);
    }
    assert ps[..|ps|] == ps;
    DroppedAre(m, ps, l);
    if Reaching(create) {
      forall p | p in ps && p.time >= min ensures p in m.dropped <==> Hidden(l, p.time) {
        DroppedExact(ps, min, create, l, p);
      }
    }
    if Honest(create) {
      DroppedAreOld(ps, l, min);
    }
  }

  lemma NothingMapped(m: ShardMapping, l: seq<Group>)
    requires Sharded(l) && m.Valid() && m.points == map[] && m.shards == map[] && m.dropped == []
    ensures Mapped(m, [], l)
  {
  }

  lemma DroppedAre(m: ShardMapping, ps: seq<Point>, l: seq<Group>)
    requires Sharded(l) && Mapped(m, ps, l)
    ensures m.dropped == Unrouted(ps, l)
  {
  }

  /** Every shard kept in the mapping is one that a point was routed to. */
  ghost predicate Routed(shards: map<nat, Shard>, ps: seq<Point>, l: seq<Group>)
    requires Sharded(l)
  {
    forall id :: id in shards ==> exists p :: p in ps && Route(l, p) == Some(shards[id])
  }

  lemma RoutedMore(shards: map<nat, Shard>, ps: seq<Point>, l: seq<Group>, p: Point)
    requires Sharded(l) && Routed(shards, ps, l)
    ensures Routed(shards, ps + [p], l)
  {
    hide Route;
    forall id | id in shards ensures exists x :: x in ps + [p] && Route(l, x) == Some(shards[id]) {
      var x :| x in ps && Route(l, x) == Some(shards[id]);
      assert x in ps + [p];
    }
  }

  lemma RoutedAdd(shards: map<nat, Shard>, ps: seq<Point>, l: seq<Group>, p: Point, sh: Shard)
    requires Sharded(l) && Routed(shards, ps, l) && p in ps && Route(l, p) == Some(sh)
    ensures Routed(shards[sh.id := sh], ps, l)
  {
    hide Route;
  }

  lemma RouteIs(l: seq<Group>, p: Point)
    requires Sharded(l)
    ensures Lookup(l, p.time) == None ==> Route(l, p) == None
    ensures Lookup(l, p.time).Some? ==>
              && Lookup(l, p.time).value in l
              && Route(l, p) == Some(ShardFor(Lookup(l, p.time).value, p.hash))
  {
    LookupContains(l, p.time);
  }

  lemma ShardedSome(l: seq<Group>, g: Group)
    requires Sharded(l) && g in l
    ensures g.shards != []
  {
  }

  lemma {:induction false} DroppedAreOld(ps: seq<Point>, l: seq<Group>, min: int)
    requires Sharded(l)
    requires forall p :: p in ps && p.time >= min ==> Covered(l, p.time)
    ensures forall p :: p in Unrouted(ps, l) ==> p.time < min && p in ps
  {
    hide Route;
    if ps != [] {
      var n := |ps| - 1;
      assert ps == ps[..n] + [ps[n]];
      DroppedAreOld(ps[..n], l, min);
      RouteIs(l, ps[n]);
    }
  }
}
