/**
 Writing to the owners of a shard at a consistency level (coordinator/points_writer.go).
 What each owner did, the order in which the owners' results arrive, and the moment a
 timeout or the closing of the writer is selected instead, are arbitrary inputs.
 */
module ShardWrites {
  import opened Bytes
  import opened MetaModel
  import opened PointMapping
  import Placement

  datatype Level = Any | One | Quorum | All

  /** The number of acknowledgements the level asks for. */
  function Required(n: nat, level: Level): (r: nat) {
    match level
    case Any => 1
    case One => 1
    case Quorum => n / 2 + 1
    case All => n
  }

  // ---------- one owner ----------

  datatype StoreResult = Stored | ShardNotFound | StoreFailed

  /** What one owner's goroutine met: the local store's answers, or the remote error and the handoff queue's answer. */
  datatype OwnerRun =
    | Local(first: StoreResult, created: bool, second: StoreResult)
    | Remote(error: Option<string>, queued: bool)

  const CONFLICT := "field type conflict"

  predicate SubstringAt(s: string, sub: string, i: nat) {
    i + |sub| <= |s| && s[i..i + |sub|] == sub
  }

  predicate HasSubstring(s: string, sub: string) {
    exists i :: 0 <= i <= |s| && SubstringAt(s, sub, i)
  }

  predicate CanRetry(error: Option<string>) {
    error == None || !HasSubstring(error.value, CONFLICT)
  }

  /** The points are in the owner's store. */
  predicate AtOwner(o: OwnerRun) {
    match o
    case Local(first, created, second) => first == Stored || (first == ShardNotFound && created && second == Stored)
    case Remote(error, _) => error == None
  }

  /** The points wait in the hinted handoff queue for the owner. */
  predicate InHandoff(o: OwnerRun) {
    o.Remote? && o.error.Some? && CanRetry(o.error) && o.queued
  }

  /** What one owner's goroutine does, with the answers it gets. */
  datatype Call =
    | StoreLocal(result: StoreResult)
    | CreateShard(ok: bool)
    | SendRemote(error: Option<string>)
    | Enqueue(ok: bool)

  /**
   An owner counts when it stored the points; a queued handoff counts only for ANY. The calls
   made show what `AtOwner` and `InHandoff` stand for: a write that succeeded, a record that was
   taken. A missing shard is created once and written again; what failed for good is not queued.
   */
  method WriteOwner(o: OwnerRun, level: Level) returns (acked: bool, calls: seq<Call>)
    ensures acked <==> AtOwner(o) || (level == Any && InHandoff(o))
    ensures AtOwner(o) <==> StoreLocal(Stored) in calls || SendRemote(None) in calls
    ensures InHandoff(o) <==> Enqueue(true) in calls
    ensures (exists ok :: Enqueue(ok) in calls) <==>
              o.Remote? && o.error.Some? && !HasSubstring(o.error.value, "field type conflict")
    ensures (exists ok :: CreateShard(ok) in calls) <==> o.Local? && o.first == ShardNotFound
    ensures calls != []
    ensures o.Local? ==> calls[0] == StoreLocal(o.first) && (|calls| == 3 <==> CreateShard(true) in calls)
    ensures o.Remote? ==> calls[0] == SendRemote(o.error) && |calls| <= 2
  {
    if o.Local? {
      var err := o.first;
      calls := [StoreLocal(err)];
      if err == ShardNotFound {
        calls := calls + [CreateShard(o.created)];
        assert calls[1] == CreateShard(o.created);
        if !o.created {
          return false, calls;
        }
        err := o.second;
        calls := calls + [StoreLocal(err)];
        assert calls[1] == CreateShard(true) && calls[2] == StoreLocal(err);
      }
      return err == Stored, calls;
    }
    calls := [SendRemote(o.error)];
    if o.error.Some? && CanRetry(o.error) {
      calls := calls + [Enqueue(o.queued)];
      assert calls[1] == Enqueue(o.queued);
      if !o.queued {
        return false, calls;
      }
      if level == Any {
        return true, calls;
      }
    }
    return o.error == None, calls;
  }

  function Acks(os: seq<OwnerRun>, level: Level): (r: seq<bool>)
    ensures |r| == |os|
  {
    seq(|os|, i requires 0 <= i < |os| => AtOwner(os[i]) || (level == Any && InHandoff(os[i])))
  }

  // ---------- collecting the results ----------

  datatype Outcome = Written | Partial | Failed | TimedOut | Closed

  /** Every owner's result arrives once. */
  ghost predicate Arrivals(order: seq<nat>, n: nat) {
    |order| == n && Distinct(order) && forall i :: 0 <= i < n ==> order[i] < n
  }

  function Counted(acked: seq<bool>, seen: seq<nat>): (k: nat)
    requires forall i :: 0 <= i < |seen| ==> seen[i] < |acked|
  {
    if seen == [] then 0
    else Counted(acked, seen[..|seen| - 1]) + if acked[seen[|seen| - 1]] then 1 else 0
  }

  function Threshold(n: nat, level: Level): (r: nat)
    ensures r >= 1
  {
    if Required(n, level) == 0 then 1 else Required(n, level)
  }

  /** The results received before the writer stops waiting. */
  function Seen(order: seq<nat>, stop: nat): (r: seq<nat>) {
    if stop < |order| then order[..stop] else order
  }

  /** What the write comes to, from the number of acknowledgements alone. */
  function Verdict(acks: nat, n: nat, level: Level, stop: nat, closing: bool): (r: Outcome) {
    if acks >= Threshold(n, level) then Written
    else if stop < n then (if closing then Closed else TimedOut)
    else if acks > 0 then Partial
    else Failed
  }

  lemma {:induction false} CountedStep(acked: seq<bool>, order: seq<nat>, i: nat)
    requires forall k :: 0 <= k < |order| ==> order[k] < |acked|
    requires i < |order|
    ensures Counted(acked, order[..i + 1]) == Counted(acked, order[..i]) + if acked[order[i]] then 1 else 0
  {
    assert order[..i + 1][..i] == order[..i];
  }

  lemma {:induction false} CountedGrows(acked: seq<bool>, order: seq<nat>, i: nat, j: nat)
    requires forall k :: 0 <= k < |order| ==> order[k] < |acked|
    requires i <= j <= |order|
    ensures Counted(acked, order[..i]) <= Counted(acked, order[..j])
    decreases j - i
  {
    if i < j {
      CountedGrows(acked, order, i, j - 1);
      CountedStep(acked, order, j - 1);
    }
  }

  /**
   `writeToShard`'s collecting loop; `stop` is the round in which the timeout or the closing
   is selected. When no owner acknowledged, the error passed on is that of the first to answer.
   */
  method Collect(acked: seq<bool>, order: seq<nat>, level: Level, stop: nat, closing: bool)
    returns (r: Outcome, cause: Option<nat>)
    requires Arrivals(order, |acked|)
    ensures r == Verdict(Counted(acked, Seen(order, stop)), |acked|, level, stop, closing)
    ensures r == Failed ==> cause == if acked == [] then None else Some(order[0])
  {
    hide Counted;
    var n := |acked|;
    var required := n;
    if level == Any || level == One {
      required := 1;
    } else if level == Quorum {
      required := required / 2 + 1;
    }
    var wrote := 0;
    cause := None;
    NoneCounted(acked);
    for i := 0 to n
      invariant wrote == Counted(acked, order[..i])
      invariant i <= stop && wrote < Threshold(n, level)
      invariant wrote == 0 ==> cause == if i == 0 then None else Some(order[0])
    {
      if i == stop {
        return if closing then Closed else TimedOut, cause;
      }
      CountedStep(acked, order, i);
      if !acked[order[i]] {
        if cause == None {
          cause := Some(order[i]);
        }
        continue;
      }
      wrote := wrote + 1;
      if wrote >= required {
        CountedGrows(acked, order, i + 1, |Seen(order, stop)|);
        assert Seen(order, stop)[..] == order[..|Seen(order, stop)|];
        return Written, cause;
      }
    }
    assert order[..n] == order;
    if wrote > 0 {
      return Partial, cause;
    }
    return Failed, cause;
  }

  lemma NoneCounted(acked: seq<bool>)
    ensures Counted(acked, []) == 0
  {
  }

  // ---------- acknowledgements as sets of owners ----------

  ghost function AckedIn(acked: seq<bool>, seen: seq<nat>): (r: set<nat>) {
    set i | i in seen && i < |acked| && acked[i]
  }

  lemma AckedInSnoc(acked: seq<bool>, seen: seq<nat>, x: nat)
    requires x < |acked| && x !in seen
    ensures AckedIn(acked, seen + [x]) == AckedIn(acked, seen) + if acked[x] then {x} else {}
    ensures x !in AckedIn(acked, seen)
  {
  }

  lemma {:induction false} CountedIsSize(acked: seq<bool>, seen: seq<nat>)
    requires Distinct(seen) && forall i :: 0 <= i < |seen| ==> seen[i] < |acked|
    ensures Counted(acked, seen) == |AckedIn(acked, seen)|
  {
    hide AckedIn, Distinct;
    if seen == [] {
      NoneAcked(acked);
    } else {
      var n := |seen| - 1;
      assert seen == seen[..n] + [seen[n]];
      Placement.LastIsNew(seen[..n], seen[n]);
      CountedIsSize(acked, seen[..n]);
      AckedInSnoc(acked, seen[..n], seen[n]);
    }
  }

  lemma NoneAcked(acked: seq<bool>)
    ensures AckedIn(acked, []) == {}
  {
  }

  ghost function Below(n: nat): (r: set<nat>)
    ensures |r| == n && forall i :: i in r <==> 0 <= i < n
  {
    if n == 0 then {} else Below(n - 1) + {n - 1}
  }

  ghost function Elements(s: seq<nat>): (r: set<nat>) {
    set x | x in s
  }

  lemma {:induction false} DistinctSize(s: seq<nat>)
    requires Distinct(s)
    ensures |Elements(s)| == |s|
  {
    if s != [] {
      var n := |s| - 1;
      DistinctSize(s[..n]);
      assert s == s[..n] + [s[n]];
      assert s[n] !in s[..n];
      assert Elements(s) == Elements(s[..n]) + {s[n]};
    }
  }

  lemma SubsetOfSameSize(a: set<nat>, b: set<nat>)
    requires a <= b && |a| == |b|
    ensures a == b
  {
    assert b == a + (b - a);
    assert |b| == |a| + |b - a|;
  }

  /** All owners' results arrive, whatever the order. */
  lemma ArrivalsAreAll(order: seq<nat>, n: nat)
    requires Arrivals(order, n)
    ensures forall i: nat :: i < n ==> i in order
  {
    DistinctSize(order);
    SubsetOfSameSize(Elements(order), Below(n));
    forall i: nat | i < n ensures i in order {
      assert i in Elements(order);
    }
  }

  /** Without timeout or closing, the outcome does not depend on the order of arrival. */
  lemma OrderIrrelevant(acked: seq<bool>, order: seq<nat>, other: seq<nat>, level: Level, closing: bool)
    requires Arrivals(order, |acked|) && Arrivals(other, |acked|)
    ensures Verdict(Counted(acked, order), |acked|, level, |acked|, closing)
         == Verdict(Counted(acked, other), |acked|, level, |acked|, closing)
  {
    hide Verdict;
    CountedIsSize(acked, order);
    CountedIsSize(acked, other);
    ArrivalsAreAll(order, |acked|);
    ArrivalsAreAll(other, |acked|);
    assert AckedIn(acked, order) == AckedIn(acked, other);
  }

  lemma SeenDistinct(order: seq<nat>, n: nat, stop: nat)
    requires Arrivals(order, n)
    ensures Distinct(Seen(order, stop)) && forall i :: 0 <= i < |Seen(order, stop)| ==> Seen(order, stop)[i] < n
  {
  }

  /** A write at any moment: the owners' runs, the arrival order and the stop. */
  datatype Write = Write(owners: seq<OwnerRun>, level: Level, order: seq<nat>, stop: nat, closing: bool)

  ghost predicate Possible(w: Write) {
    Arrivals(w.order, |w.owners|)
  }

  ghost function ResultOf(w: Write): (r: Outcome)
    requires Possible(w)
  {
    var acked := Acks(w.owners, w.level);
    Verdict(Counted(acked, Seen(w.order, w.stop)), |w.owners|, w.level, w.stop, w.closing)
  }

  method WriteToShard(w: Write) returns (r: Outcome, cause: Option<nat>)
    requires Possible(w)
    ensures r == ResultOf(w)
    ensures r == Failed ==> cause == if w.owners == [] then None else Some(w.order[0])
  {
    var acked: seq<bool> := [];
    for i := 0 to |w.owners|
      invariant acked == Acks(w.owners, w.level)[..i]
    {
      var ok, _ := WriteOwner(w.owners[i], w.level);
      acked := acked + [ok];
    }
    assert acked == Acks(w.owners, w.level);
    r, cause := Collect(acked, w.order, w.level, w.stop, w.closing);
  }

  /** The owners that hold the points, or for ANY at least have them queued. */
  ghost function Holders(w: Write): (r: set<nat>) {
    set i | i in Below(|w.owners|) && (AtOwner(w.owners[i]) || (w.level == Any && InHandoff(w.owners[i])))
  }

  /** What a level promises about the owners in `hs`: some owner, more than half of them, or all. */
  ghost predicate Enough(n: nat, level: Level, hs: set<nat>) {
    match level
    case Any => hs != {}
    case One => hs != {}
    case Quorum => 2 * |hs| > n
    case All => n > 0 && forall i: nat :: i < n ==> i in hs
  }

  /** The holders whose results came in before the writer stopped waiting. */
  ghost function SeenHolders(w: Write): (r: set<nat>) {
    set i | i in Holders(w) && i in Seen(w.order, w.stop)
  }

  lemma EnoughIsThreshold(n: nat, level: Level, hs: set<nat>)
    requires hs <= Below(n)
    ensures Enough(n, level, hs) <==> |hs| >= Threshold(n, level)
  {
    hide Below;
    Smaller(hs, Below(n));
    if level == All && |hs| >= n {
      SubsetOfSameSize(hs, Below(n));
    }
    if level == All && Enough(n, level, hs) {
      assert hs == Below(n);
    }
  }

  lemma SeenCount(w: Write)
    requires Possible(w)
    ensures Counted(Acks(w.owners, w.level), Seen(w.order, w.stop)) == |SeenHolders(w)|
    ensures SeenHolders(w) <= Holders(w) <= Below(|w.owners|)
    ensures w.stop >= |w.owners| ==> SeenHolders(w) == Holders(w)
  {
    hide Counted, Below;
    var acked := Acks(w.owners, w.level);
    var seen := Seen(w.order, w.stop);
    SeenDistinct(w.order, |w.owners|, w.stop);
    CountedIsSize(acked, seen);
    forall i: nat ensures i in AckedIn(acked, seen) <==> i in SeenHolders(w) {
      assert i in Below(|w.owners|) <==> i < |w.owners|;
    }
    assert AckedIn(acked, seen) == SeenHolders(w);
    if w.stop >= |w.owners| {
      ArrivalsAreAll(w.order, |w.owners|);
    }
  }

  /** Every outcome, told from which owners hold the points and whose results were awaited. */
  lemma OutcomeExact(w: Write)
    requires Possible(w)
    ensures ResultOf(w) == Written <==> Enough(|w.owners|, w.level, SeenHolders(w))
    ensures ResultOf(w) != Written ==>
      && (ResultOf(w) == Closed <==> w.stop < |w.owners| && w.closing)
      && (ResultOf(w) == TimedOut <==> w.stop < |w.owners| && !w.closing)
      && (ResultOf(w) == Partial <==> w.stop >= |w.owners| && Holders(w) != {})
      && (ResultOf(w) == Failed <==> w.stop >= |w.owners| && Holders(w) == {})
  {
    hide Counted, Below, Enough, Threshold, Holders, SeenHolders;
    SeenCount(w);
    EnoughIsThreshold(|w.owners|, w.level, SeenHolders(w));
  }

  /** Success means enough different owners hold the points. */
  lemma WrittenMeans(w: Write)
    requires Possible(w) && ResultOf(w) == Written
    ensures Enough(|w.owners|, w.level, Holders(w))
  {
    hide ResultOf, Below, Holders;
    OutcomeExact(w);
    SeenCount(w);
    Smaller(SeenHolders(w), Holders(w));
  }

  lemma Smaller(a: set<nat>, b: set<nat>)
    requires a <= b
    ensures |a| <= |b|
  {
    assert b == a + (b - a);
  }

  /** Conversely, with every result awaited, enough holders mean success and the rest is told apart by one holder. */
  lemma FullWaitExact(w: Write)
    requires Possible(w) && w.stop >= |w.owners|
    ensures ResultOf(w) == Written <==> Enough(|w.owners|, w.level, Holders(w))
    ensures ResultOf(w) == Failed <==> Holders(w) == {}
    ensures ResultOf(w) != TimedOut && ResultOf(w) != Closed
  {
    hide ResultOf, Below, Holders, Enough;
    OutcomeExact(w);
    SeenCount(w);
    if Enough(|w.owners|, w.level, Holders(w)) {
      EnoughIsSome(|w.owners|, w.level, Holders(w));
    }
  }

  lemma EnoughIsSome(n: nat, level: Level, hs: set<nat>)
    requires Enough(n, level, hs)
    ensures hs != {}
  {
    if level == All {
      assert 0 in hs;
    }
  }

  lemma LargeSetsMeet(a: set<nat>, b: set<nat>, n: nat)
    requires a <= Below(n) && b <= Below(n) && |a| + |b| > n
    ensures a * b != {}
  {
    if a * b == {} {
      assert |a + b| == |a| + |b|;
      Smaller(a + b, Below(n));
    }
  }

  /** Two successful quorum writes to the same owners share an owner that stored both. */
  lemma QuorumsMeet(v: Write, w: Write)
    requires Possible(v) && Possible(w) && |v.owners| == |w.owners|
    requires v.level == Quorum && w.level == Quorum
    requires ResultOf(v) == Written && ResultOf(w) == Written
    ensures exists i :: 0 <= i < |v.owners| && AtOwner(v.owners[i]) && AtOwner(w.owners[i])
  {
    hide ResultOf, Below, AtOwner;
    SeenCount(v);
    SeenCount(w);
    WrittenMeans(v);
    WrittenMeans(w);
    LargeSetsMeet(Holders(v), Holders(w), |v.owners|);
    var i :| i in Holders(v) * Holders(w);
  }

  /** At ONE, and at ANY, two successful writes can be on different owners. */
  lemma SingleAcksCanMiss(level: Level)
    requires level == One || level == Any
    ensures exists v, w ::
              && Possible(v) && Possible(w) && |v.owners| == |w.owners| && v.level == level && w.level == level
              && ResultOf(v) == Written && ResultOf(w) == Written && Holders(v) * Holders(w) == {}
  {
    var good, bad := Remote(None, false), Remote(Some(""), false);
    var v := Write([good, bad], level, [0, 1], 2, false);
    var w := Write([bad, good], level, [0, 1], 2, false);
    assert Holders(v) == {0};
    assert Holders(w) == {1};
    FullWaitExact(v);
    FullWaitExact(w);
    assert Holders(v) * Holders(w) == {};
  }

  // ---------- the whole request ----------

  datatype RequestResult = Accepted | NotMapped | Rejected | ShardError(outcome: Outcome) | Expired | ShutDown

  /** The first result that is not a success, or the number of results. */
  function FirstBad(results: seq<Outcome>): (k: nat)
    ensures k <= |results|
    ensures forall i :: 0 <= i < k ==> results[i] == Written
    ensures k < |results| ==> results[k] != Written
  {
    if results == [] then 0 else if results[0] != Written then 0 else 1 + FirstBad(results[1..])
  }

  /** The end of `WritePointsPrivileged`: shard results in arrival order, the first error wins. */
  method Gather(results: seq<Outcome>, dropped: seq<Point>, stop: nat, closing: bool) returns (r: RequestResult)
    ensures var k := FirstBad(results);
            r == if k < |results| && k < stop then ShardError(results[k])
                 else if stop < |results| then (if closing then ShutDown else Expired)
                 else if dropped != [] then Rejected
                 else Accepted
    ensures r == Accepted <==> dropped == [] && stop >= |results| && forall i :: 0 <= i < |results| ==> results[i] == Written
  {
    for i := 0 to |results|
      invariant i <= stop
      invariant forall k :: 0 <= k < i ==> results[k] == Written
    {
      if i == stop {
        return if closing then ShutDown else Expired;
      }
      if results[i] != Written {
        return ShardError(results[i]);
      }
    }
    if |dropped| > 0 {
      return Rejected;
    }
    return Accepted;
  }

  /** What happens to the write of one shard: its owners' runs, and how their results arrive. */
  datatype Attempt = Attempt(owners: seq<OwnerRun>, order: seq<nat>, stop: nat, closing: bool)

  /** Every shard's attempt has one run for each of its owners. */
  ghost predicate Fitting(env: Shard -> Attempt) {
    forall sh :: |env(sh).owners| == |sh.owners| && Arrivals(env(sh).order, |sh.owners|)
  }

  function WriteOf(env: Shard -> Attempt, sh: Shard, level: Level): (w: Write) {
    Write(env(sh).owners, level, env(sh).order, env(sh).stop, env(sh).closing)
  }

  lemma FittingPossible(env: Shard -> Attempt, sh: Shard, level: Level)
    requires Fitting(env)
    ensures Possible(WriteOf(env, sh, level)) && |WriteOf(env, sh, level).owners| == |sh.owners|
  {
  }

  /** As many owners of the shard as the level asks for hold what was written to it. */
  ghost predicate Held(env: Shard -> Attempt, sh: Shard, level: Level) {
    Enough(|sh.owners|, level, Holders(WriteOf(env, sh, level)))
  }

  lemma {:induction false} NotDropped(ps: seq<Point>, l: seq<Group>, p: Point)
    requires Sharded(l) && Unrouted(ps, l) == [] && p in ps
    ensures Route(l, p).Some? && ToShard(ps, l, Route(l, p).value.id) != []
  {
    hide Route, Unrouted, ToShard;
    EachPointOnce(ps, l, p, 0);
    assert p in multiset(ps);
    assert Route(l, p).Some?;
    EachPointOnce(ps, l, p, Route(l, p).value.id);
    assert p in multiset(ToShard(ps, l, Route(l, p).value.id));
  }

  /** Every shard of the mapping was written. */
  ghost predicate AllWritten(m: ShardMapping, env: Shard -> Attempt, level: Level)
    requires Fitting(env)
    reads m
  {
    forall id :: id in m.shards ==>
      Possible(WriteOf(env, m.shards[id], level)) && ResultOf(WriteOf(env, m.shards[id], level)) == Written
  }

  /** An accepted request: every point is with enough owners of the shard it was mapped to. */
  lemma AcceptedIsHeld(m: ShardMapping, ps: seq<Point>, l: seq<Group>, env: Shard -> Attempt, level: Level, p: Point)
    requires Sharded(l) && Mapped(m, ps, l) && m.dropped == [] && p in ps && Fitting(env) && AllWritten(m, env, level)
    ensures Route(l, p).Some?
    ensures var id := Route(l, p).value.id;
            && id in m.shards && p in m.PointsOf(id) && m.shards[id].id == id && Held(env, m.shards[id], level)
  {
    hide ResultOf, Route, Holders, Possible, Unrouted, ToShard, Routed, Fitting;
    NotDropped(ps, l, p);
    var id := Route(l, p).value.id;
    EachPointOnce(ps, l, p, id);
    assert p in multiset(ps);
    assert p in multiset(m.PointsOf(id));
    assert id in m.points;
    FittingPossible(env, m.shards[id], level);
    WrittenMeans(WriteOf(env, m.shards[id], level));
  }

  /** The results of the shards `ids`, in that order. */
  ghost predicate Answered(m: ShardMapping, env: Shard -> Attempt, level: Level, ids: seq<nat>, results: seq<Outcome>)
    requires Fitting(env)
    reads m
  {
    && |ids| == |results|
    && forall i :: 0 <= i < |ids| ==> ids[i] in m.shards && IsResult(env, m.shards[ids[i]], level, results[i])
  }

  ghost predicate IsResult(env: Shard -> Attempt, sh: Shard, level: Level, r: Outcome) {
    Possible(WriteOf(env, sh, level)) && r == ResultOf(WriteOf(env, sh, level))
  }

  lemma AnsweredAll(m: ShardMapping, env: Shard -> Attempt, level: Level, ids: seq<nat>, results: seq<Outcome>)
    requires Fitting(env) && Answered(m, env, level, ids, results) && forall id :: id in m.shards ==> id in ids
    ensures (forall i :: 0 <= i < |results| ==> results[i] == Written) <==> AllWritten(m, env, level)
  {
    hide ResultOf, Fitting, Possible, WriteOf;
    if forall i :: 0 <= i < |results| ==> results[i] == Written {
      forall id | id in m.shards ensures IsResult(env, m.shards[id], level, Written) {
        var i :| 0 <= i < |ids| && ids[i] == id;
      }
    }
    if AllWritten(m, env, level) {
      forall i | 0 <= i < |results| ensures results[i] == Written {
        assert IsResult(env, m.shards[ids[i]], level, results[i]);
      }
    }
  }

  /** The shard writes, in the order in which they are answered. */
  method WriteShards(m: ShardMapping, env: Shard -> Attempt, level: Level) returns (results: seq<Outcome>)
    requires m.Valid() && Fitting(env)
    ensures (forall i :: 0 <= i < |results| ==> results[i] == Written) <==> AllWritten(m, env, level)
    ensures |results| == |m.points|
  {
    hide ResultOf, Fitting, Possible, IsResult, AllWritten, Answered, WriteOf;
    results := [];
    var left := m.points.Keys;
    ghost var ids: seq<nat>, done: set<nat> := [], {};
    NoneAnswered(m, env, level);
    while left != {}
      invariant done + left == m.points.Keys && done !! left && |results| == |done|
      invariant forall id :: id in done <==> id in ids
      invariant Answered(m, env, level, ids, results)
      decreases left
    {
      var id :| id in left;
      var w := WriteOf(env, m.shards[id], level);
      FittingPossible(env, m.shards[id], level);
      var r, _ := WriteToShard(w);
      ResultIs(env, m.shards[id], level);
      AnsweredSnoc(m, env, level, ids, results, id, r);
      results, ids := results + [r], ids + [id];
      left, done := left - {id}, done + {id};
    }
    assert |m.points.Keys| == |m.points|;
    AnsweredAll(m, env, level, ids, results);
  }

  lemma NoneAnswered(m: ShardMapping, env: Shard -> Attempt, level: Level)
    requires Fitting(env)
    ensures Answered(m, env, level, [], [])
  {
  }

  lemma AnsweredSnoc(m: ShardMapping, env: Shard -> Attempt, level: Level, ids: seq<nat>, results: seq<Outcome>,
                     id: nat, r: Outcome)
    requires Fitting(env) && Answered(m, env, level, ids, results)
    requires id in m.shards && IsResult(env, m.shards[id], level, r)
    ensures Answered(m, env, level, ids + [id], results + [r])
  {
    hide IsResult, Fitting;
  }

  lemma ResultIs(env: Shard -> Attempt, sh: Shard, level: Level)
    requires Possible(WriteOf(env, sh, level))
    ensures IsResult(env, sh, level, ResultOf(WriteOf(env, sh, level)))
  {
  }

  /**
   `WritePointsPrivileged`: an accepted request has every point with enough owners of its
   shard; it is accepted exactly when nothing was dropped and every shard was written in time.
   */
  method WritePoints(ps: seq<Point>, min: int, create: int -> Option<Group>, level: Level, env: Shard -> Attempt,
                     stop: nat, closing: bool)
    returns (r: RequestResult, m: ShardMapping, ghost l: seq<Group>)
    requires Choosable(create) && Fitting(env)
    ensures fresh(m) && Known(create, l) && Sharded(l)
    ensures r == NotMapped ==> exists p :: p in ps && p.time >= min && create(p.time) == None
    ensures r != NotMapped ==> Mapped(m, ps, l)
    ensures r != NotMapped ==> (r == Accepted <==> m.dropped == [] && stop >= |m.points| && AllWritten(m, env, level))
    ensures r == Accepted ==> forall p :: p in ps ==>
      && Route(l, p).Some?
      && var id := Route(l, p).value.id; id in m.shards && p in m.PointsOf(id) && Held(env, m.shards[id], level)
  {
    hide Mapped, Known, Choosable, AllWritten, Held, Route, Sharded, Honest;
    var ok;
    ok, m, l := MapShards(ps, min, create);
    if !ok {
      return NotMapped, m, l;
    }
    MappedValid(m, ps, l);
    var results := WriteShards(m, env, level);
    r := Gather(results, m.dropped, stop, closing);
    if r == Accepted {
      forall p | p in ps
        ensures Route(l, p).Some?
        ensures var id := Route(l, p).value.id; id in m.shards && p in m.PointsOf(id) && Held(env, m.shards[id], level)
      {
        AcceptedIsHeld(m, ps, l, env, level, p);
      }
    }
  }

  lemma MappedValid(m: ShardMapping, ps: seq<Point>, l: seq<Group>)
    requires Sharded(l) && Mapped(m, ps, l)
    ensures m.Valid()
  {
  }
}
