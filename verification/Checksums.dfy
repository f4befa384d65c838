/**
 The checksums that metadata replicas compare (raftmeta/apply.go): which checksum a replica
 holds in every run, whether or not the replicas still agree, and exactly which entry stops it.
 */
module Checksums {
  import opened Bytes
  import opened Determinism
  import opened MetaModel
  import opened MetaOps
  import opened ReplicaRuns

  // ---------- which checksum a replica holds ----------

  /** The event makes replica `id` apply an entry that it has not applied. */
  predicate AppliesNext(s: System, ev: Event, id: nat) {
    ev.Deliver? && ev.id == id && id in s.replicas && ev.index == s.replicas[id].applied + 1 <= |s.log|
  }

  predicate Takes(s: System, ev: Event, id: nat) {
    AppliesNext(s, ev, id) && s.log[ev.index - 1].CreateChecksum?
  }

  /** Event `k` is the last before state `j` at which the replica took a checksum, and it was not restarted since. */
  ghost predicate LastTaken(ss: seq<System>, es: seq<Event>, id: nat, k: nat, j: nat)
    requires j <= |es| < |ss|
  {
    && k < j && Takes(ss[k], es[k], id)
    && forall m :: k < m < j ==> !Takes(ss[m], es[m], id) && es[m] != Restart(id)
  }

  ghost predicate NothingTaken(ss: seq<System>, es: seq<Event>, id: nat, j: nat)
    requires j <= |es| < |ss|
  {
    forall k: nat :: k < j ==> !LastTaken(ss, es, id, k, j)
  }

  lemma ChecksumStep(init: Meta, s: System, ev: Event, t: System, id: nat)
    requires Step(init, s, ev, t) && id in s.replicas
    ensures id in t.replicas
    ensures t.replicas[id].checksum ==
              if Takes(s, ev, id) then Some(Checksum(ev.index, ChecksumInput(s.replicas[id].data)))
              else if ev == Restart(id) then None
              else s.replicas[id].checksum
  {
    hide Apply, ChecksumInput;
  }

  /**
   In every run, prunes that disagree included: a replica holds the checksum of its own data at
   the last checksum entry it applied, under that entry's index; none if there was no such
   entry since it started.
   */
  lemma {:induction false} ChecksumExact(init: Meta, ss: seq<System>, es: seq<Event>, id: nat, j: nat)
    requires Run(init, ss, es) && j < |ss| && id in ss[0].replicas
    ensures id in ss[j].replicas
    ensures forall k: nat :: LastTaken(ss, es, id, k, j) ==>
              && id in ss[k].replicas
              && ss[j].replicas[id].checksum == Some(Checksum(es[k].index, ChecksumInput(ss[k].replicas[id].data)))
    ensures NothingTaken(ss, es, id, j) ==> ss[j].replicas[id].checksum == None
  {
    hide Step, ChecksumInput;
    if j > 0 {
      ChecksumExact(init, ss, es, id, j - 1);
      assert Step(init, ss[j - 1], es[j - 1], ss[(j - 1) + 1]);
      ChecksumStep(init, ss[j - 1], es[j - 1], ss[j], id);
      forall k: nat | LastTaken(ss, es, id, k, j)
        ensures id in ss[k].replicas
        ensures ss[j].replicas[id].checksum == Some(Checksum(es[k].index, ChecksumInput(ss[k].replicas[id].data)))
      {
        assert k < j - 1 ==> LastTaken(ss, es, id, k, j - 1);
      }
      if NothingTaken(ss, es, id, j) {
        NothingBefore(ss, es, id, j - 1);
      }
    }
  }

  lemma NothingBefore(ss: seq<System>, es: seq<Event>, id: nat, j: nat)
    requires j < |es| < |ss| && NothingTaken(ss, es, id, j + 1)
    ensures !Takes(ss[j], es[j], id)
    ensures es[j] != Restart(id) ==> NothingTaken(ss, es, id, j)
  {
    hide Takes;
    assert LastTaken(ss, es, id, j, j + 1) <==> Takes(ss[j], es[j], id);
    if es[j] != Restart(id) {
      forall k: nat | k < j ensures !LastTaken(ss, es, id, k, j) {
        assert !LastTaken(ss, es, id, k, j + 1);
      }
    }
  }

  /** As long as the prunes agree, that is the checksum of the log up to the entry. */
  lemma ChecksumOfLog(init: Meta, ss: seq<System>, es: seq<Event>, id: nat, k: nat, j: nat)
    requires Run(init, ss, es) && PrunesAgree(init, ss, es) && j < |ss| && id in ss[0].replicas && LastTaken(ss, es, id, k, j)
    ensures id in ss[j].replicas && es[k].index <= |ss[j].log|
    ensures ss[j].replicas[id].checksum == Some(Checksum(es[k].index, ChecksumInput(Fold(init, ss[j].log, es[k].index))))
  {
    hide Step, Fold, ChecksumInput, Follows, PrunesAgree, LastTaken, LogOk;
    ChecksumExact(init, ss, es, id, j);
    RunKeepsInv(init, ss, es, j);
    assert ReplicaOk(init, ss[j].log, ss[j].replicas[id]);
    TakenIsDelivered(ss, es, id, k, j);
  }

  lemma TakenIsDelivered(ss: seq<System>, es: seq<Event>, id: nat, k: nat, j: nat)
    requires j <= |es| < |ss| && LastTaken(ss, es, id, k, j)
    ensures k < |es| && es[k].Deliver?
  {
  }

  // ---------- who is stopped ----------

  /** The replica's own checksum for that index differs from the one it is sent. */
  ghost predicate Differs(ss: seq<System>, es: seq<Event>, id: nat, j: nat, e: Entry)
    requires j <= |es| < |ss|
  {
    && e.VerifyChecksum? && e.node != id
    && exists k: nat ::
         && LastTaken(ss, es, id, k, j) && id in ss[k].replicas
         && es[k].index == e.index && ChecksumInput(ss[k].replicas[id].data) != e.sum
  }

  lemma VerifyExact(init: Meta, ss: seq<System>, es: seq<Event>, id: nat, j: nat, e: Entry)
    requires Run(init, ss, es) && j < |ss| && id in ss[0].replicas
    ensures id in ss[j].replicas && (VerifyPasses(id, ss[j].replicas[id], e) <==> !Differs(ss, es, id, j, e))
  {
    hide Step, ChecksumInput, LastTaken;
    ChecksumExact(init, ss, es, id, j);
    var r := ss[j].replicas[id];
    if !VerifyPasses(id, r, e) {
      var k: nat :| k < j && LastTaken(ss, es, id, k, j);
    }
  }

  lemma StopStep(init: Meta, s: System, ev: Event, t: System, id: nat)
    requires Step(init, s, ev, t) && id in s.replicas
    ensures id in t.stopped && id !in s.stopped <==>
              id !in s.stopped && AppliesNext(s, ev, id) && !VerifyPasses(id, s.replicas[id], s.log[ev.index - 1])
    ensures id in t.stopped ==> id in t.replicas && t.replicas[id] == s.replicas[id]
    ensures id !in t.stopped && AppliesNext(s, ev, id) ==>
              id in t.replicas && t.replicas[id].applied == s.replicas[id].applied + 1
  {
    hide Apply, ChecksumInput;
  }

  /**
   In every run a replica is stopped by an event if and only if that event hands it, as the next
   entry, a checksum of another node that differs from its own one for that index. It then
   applies nothing; otherwise the entry is applied.
   */
  lemma StopsExact(init: Meta, ss: seq<System>, es: seq<Event>, id: nat, j: nat)
    requires Run(init, ss, es) && j < |es| && id in ss[0].replicas
    ensures id in ss[j].replicas && id in ss[j + 1].replicas
    ensures id in ss[j + 1].stopped && id !in ss[j].stopped <==>
              id !in ss[j].stopped && AppliesNext(ss[j], es[j], id) && Differs(ss, es, id, j, ss[j].log[es[j].index - 1])
    ensures id in ss[j + 1].stopped ==> ss[j + 1].replicas[id] == ss[j].replicas[id]
    ensures id !in ss[j + 1].stopped && AppliesNext(ss[j], es[j], id) ==>
              ss[j + 1].replicas[id].applied == ss[j].replicas[id].applied + 1
  {
    hide Step, Differs, VerifyPasses;
    ChecksumExact(init, ss, es, id, j);
    assert Step(init, ss[j], es[j], ss[j + 1]);
    StopStep(init, ss[j], es[j], ss[j + 1], id);
    if AppliesNext(ss[j], es[j], id) {
      VerifyExact(init, ss, es, id, j, ss[j].log[es[j].index - 1]);
    }
    ChecksumExact(init, ss, es, id, j + 1);
  }

  // ---------- snapshots ----------

  /**
   A snapshot entry leaves a snapshot that is at least as new: the replica's own data under the
   entry's index, unless a later one had been installed.
   */
  lemma SnapshotIsTaken(init: Meta, s: System, ev: Event, t: System, id: nat)
    requires Inv(init, s) && Step(init, s, ev, t) && AppliesNext(s, ev, id) && s.log[ev.index - 1].SnapShot?
    ensures id in t.replicas && t.replicas[id].stored.Some? && t.replicas[id].stored.value.index >= ev.index
    ensures Follows(init, t.log, t.replicas[id].stored.value.data, t.replicas[id].stored.value.index)
    ensures t.replicas[id].stored == Some(Snapshot(ev.index, s.replicas[id].data)) <==>
              (s.replicas[id].stored.Some? && s.replicas[id].stored.value.index >= ev.index ==>
                 s.replicas[id].stored == Some(Snapshot(ev.index, s.replicas[id].data)))
  {
    hide Follows, SumOk, LogOk, ChecksumInput, Apply;
    StepKeepsInv(init, s, ev, t);
    assert ReplicaOk(init, t.log, t.replicas[id]);
  }

  /** Otherwise a snapshot stays as it is, through restarts as well, unless another is installed. */
  lemma SnapshotStays(init: Meta, s: System, ev: Event, t: System, id: nat)
    requires Step(init, s, ev, t) && id in s.replicas
    requires !(AppliesNext(s, ev, id) && s.log[ev.index - 1].SnapShot?) && !(ev.Install? && ev.id == id)
    ensures id in t.replicas && t.replicas[id].stored == s.replicas[id].stored
  {
    hide Apply, ChecksumInput;
  }

  // ---------- two replicas of the same commands ----------

  /** `ds` are the states that the commands lead through with these clocks. */
  ghost predicate Leads(init: Meta, cs: seq<Cmd>, clocks: seq<int>, ds: seq<Meta>) {
    && |ds| == |cs| + 1 && |clocks| == |cs| && ds[0] == init
    && forall i :: 0 <= i < |cs| ==> clocks[i] != 0 && ds[i + 1] == Apply(ds[i], cs[i], clocks[i]).meta
  }

  /** The first `k` commands as log entries, and the request for a checksum behind them. */
  function LogOf(cs: seq<Cmd>, k: nat): (log: seq<Entry>)
    requires k <= |cs| + 1
  {
    seq(k, i requires 0 <= i < k => if i < |cs| then Command(cs[i]) else CreateChecksum)
  }

  /** A replica that has applied the first `k` of these entries. */
  ghost function Follower(cs: seq<Cmd>, ds: seq<Meta>, k: nat): (r: Replica)
    requires |ds| == |cs| + 1 && k <= |cs| + 1
  {
    if k <= |cs| then Replica(ds[k], k, None, None, false)
    else Replica(ds[|cs|], k, None, Some(SumOf(cs, ds)), false)
  }

  ghost function SumOf(cs: seq<Cmd>, ds: seq<Meta>): (c: Checksum)
    requires |ds| == |cs| + 1
  {
    Checksum(|cs| + 1, ChecksumInput(ds[|cs|]))
  }

  /** Everything is committed, then replica 0 applies it, then replica 1. */
  ghost function Round(cs: seq<Cmd>, ds: seq<Meta>, es: seq<Meta>, j: nat): (s: System)
    requires |ds| == |es| == |cs| + 1 && j <= 3 * (|cs| + 1)
  {
    var n := |cs| + 1;
    var a := if j <= n then 0 else if j <= 2 * n then j - n else n;
    var b := if j <= 2 * n then 0 else j - 2 * n;
    System(LogOf(cs, if j <= n then j else n), map[0 := Follower(cs, ds, a), 1 := Follower(cs, es, b)],
           (if a == n then {SumOf(cs, ds)} else {}) + (if b == n then {SumOf(cs, es)} else {}), {})
  }

  ghost function RoundEvent(cs: seq<Cmd>, at: seq<int>, later: seq<int>, j: nat): (ev: Event)
    requires |at| == |later| == |cs| && j < 3 * (|cs| + 1)
  {
    var n := |cs| + 1;
    if j < n then Commit(LogOf(cs, n)[j])
    else if j < 2 * n then Deliver(0, j - n + 1, if j - n < |cs| then at[j - n] else 1)
    else Deliver(1, j - 2 * n + 1, if j - 2 * n < |cs| then later[j - 2 * n] else 1)
  }

  lemma FollowerStep(init: Meta, cs: seq<Cmd>, clocks: seq<int>, ds: seq<Meta>, k: nat, id: nat)
    requires Leads(init, cs, clocks, ds) && k <= |cs|
    ensures var r, e := Follower(cs, ds, k), LogOf(cs, |cs| + 1)[k];
            && r.applied == k && !r.restoring && VerifyPasses(id, r, e)
            && OnEntry(r, k + 1, e, if k < |cs| then clocks[k] else 1) == Follower(cs, ds, k + 1)
  {
    hide Apply, ChecksumInput;
  }

  lemma CommitStep(init: Meta, cs: seq<Cmd>, ds: seq<Meta>, es: seq<Meta>, at: seq<int>, later: seq<int>, j: nat)
    requires Leads(init, cs, at, ds) && Leads(init, cs, later, es) && j <= |cs|
    ensures Step(init, Round(cs, ds, es, j), RoundEvent(cs, at, later, j), Round(cs, ds, es, j + 1))
  {
    hide Apply, ChecksumInput, Follower;
    assert LogOf(cs, j + 1) == LogOf(cs, j) + [LogOf(cs, |cs| + 1)[j]];
    FirstFollowers(cs, ds, es);
  }

  lemma FirstFollowers(cs: seq<Cmd>, ds: seq<Meta>, es: seq<Meta>)
    requires |ds| == |es| == |cs| + 1
    ensures forall j: nat :: j <= |cs| + 1 ==>
              Round(cs, ds, es, j) == System(LogOf(cs, j), map[0 := Follower(cs, ds, 0), 1 := Follower(cs, es, 0)], {}, {})
  {
    hide Follower, LogOf, SumOf;
  }

  lemma ZeroStep(init: Meta, cs: seq<Cmd>, ds: seq<Meta>, es: seq<Meta>, at: seq<int>, later: seq<int>, k: nat)
    requires Leads(init, cs, at, ds) && Leads(init, cs, later, es) && k <= |cs|
    ensures var j := |cs| + 1 + k;
            Step(init, Round(cs, ds, es, j), RoundEvent(cs, at, later, j), Round(cs, ds, es, j + 1))
  {
    hide Apply, ChecksumInput, OnEntry, LogOf, VerifyPasses;
    FollowerStep(init, cs, at, ds, k, 0);
    LogLength(cs);
    var n := |cs| + 1;
    var s, t := Round(cs, ds, es, n + k), Round(cs, ds, es, n + k + 1);
    assert s.replicas[0 := Follower(cs, ds, k + 1)] == t.replicas;
  }

  lemma LogLength(cs: seq<Cmd>)
    ensures |LogOf(cs, |cs| + 1)| == |cs| + 1
  {
  }

  lemma OneStep(init: Meta, cs: seq<Cmd>, ds: seq<Meta>, es: seq<Meta>, at: seq<int>, later: seq<int>, k: nat)
    requires Leads(init, cs, at, ds) && Leads(init, cs, later, es) && k <= |cs|
    ensures var j := 2 * (|cs| + 1) + k;
            Step(init, Round(cs, ds, es, j), RoundEvent(cs, at, later, j), Round(cs, ds, es, j + 1))
  {
    hide Apply, ChecksumInput, OnEntry, LogOf, VerifyPasses;
    FollowerStep(init, cs, later, es, k, 1);
    LogLength(cs);
    var n := |cs| + 1;
    var s, t := Round(cs, ds, es, 2 * n + k), Round(cs, ds, es, 2 * n + k + 1);
    assert s.replicas[1 := Follower(cs, es, k + 1)] == t.replicas;
  }

  /** Replica 1 is sent what replica 0 took. */
  ghost function Asked(cs: seq<Cmd>, ds: seq<Meta>, es: seq<Meta>): (s: System)
    requires |ds| == |es| == |cs| + 1
  {
    var s := Round(cs, ds, es, 3 * (|cs| + 1));
    s.(log := s.log + [VerifyChecksum(|cs| + 1, SumOf(cs, ds).sum, 0)])
  }

  /** Replica 1 after it met that entry. */
  ghost function Met(cs: seq<Cmd>, ds: seq<Meta>, es: seq<Meta>): (s: System)
    requires |ds| == |es| == |cs| + 1
  {
    var s := Asked(cs, ds, es);
    if SumOf(cs, es) != SumOf(cs, ds) then s.(stopped := {1})
    else s.(replicas := s.replicas[1 := Follower(cs, es, |cs| + 1).(applied := |cs| + 2)])
  }

  lemma AskStep(init: Meta, cs: seq<Cmd>, ds: seq<Meta>, es: seq<Meta>)
    requires |ds| == |es| == |cs| + 1
    ensures Step(init, Round(cs, ds, es, 3 * (|cs| + 1)), Commit(VerifyChecksum(|cs| + 1, SumOf(cs, ds).sum, 0)),
                 Asked(cs, ds, es))
  {
    hide ChecksumInput, Follower, LogOf;
  }

  lemma MeetStep(init: Meta, cs: seq<Cmd>, ds: seq<Meta>, es: seq<Meta>)
    requires |ds| == |es| == |cs| + 1
    ensures Step(init, Asked(cs, ds, es), Deliver(1, |cs| + 2, 1), Met(cs, ds, es))
  {
    hide ChecksumInput, LogOf;
    LogLength(cs);
    var s := Asked(cs, ds, es);
    assert s.log[|cs| + 1] == VerifyChecksum(|cs| + 1, SumOf(cs, ds).sum, 0);
    assert s.replicas[1] == Follower(cs, es, |cs| + 1);
    assert s.sums + {SumOf(cs, es)} == s.sums;
  }

  lemma RoundStep(init: Meta, cs: seq<Cmd>, ds: seq<Meta>, es: seq<Meta>, at: seq<int>, later: seq<int>, j: nat)
    requires Leads(init, cs, at, ds) && Leads(init, cs, later, es) && j < 3 * (|cs| + 1)
    ensures Step(init, Round(cs, ds, es, j), RoundEvent(cs, at, later, j), Round(cs, ds, es, j + 1))
  {
    hide Step, Round, RoundEvent, Leads;
    LeadsShape(init, cs, at, ds);
    LeadsShape(init, cs, later, es);
    var n := |cs| + 1;
    if j < n {
      CommitStep(init, cs, ds, es, at, later, j);
    } else if j < 2 * n {
      ZeroStep(init, cs, ds, es, at, later, j - n);
    } else {
      OneStep(init, cs, ds, es, at, later, j - 2 * n);
    }
  }

  lemma LeadsShape(init: Meta, cs: seq<Cmd>, clocks: seq<int>, ds: seq<Meta>)
    requires Leads(init, cs, clocks, ds)
    ensures |ds| == |cs| + 1 && |clocks| == |cs| && ds[0] == init
  {
  }

  lemma RoundStarts(init: Meta, cs: seq<Cmd>, ds: seq<Meta>, es: seq<Meta>)
    requires |ds| == |es| == |cs| + 1 && ds[0] == init && es[0] == init
    ensures Initial(init, Round(cs, ds, es, 0))
  {
    hide ChecksumInput;
  }

  /**
   Whatever the commands and whatever the two clocks: after both replicas took a checksum, the
   one that is sent the other's is stopped if and only if their data differ for the checksum.
   */
  lemma CheckSeparates(init: Meta, cs: seq<Cmd>, ds: seq<Meta>, es: seq<Meta>, at: seq<int>, later: seq<int>)
    returns (ss: seq<System>, evs: seq<Event>)
    requires Leads(init, cs, at, ds) && Leads(init, cs, later, es)
    ensures Run(init, ss, evs) && 0 in ss[|evs|].replicas && 1 in ss[|evs|].replicas && 0 !in ss[|evs|].stopped
    ensures ss[|evs|].replicas[0].data == ds[|cs|] && ss[|evs|].replicas[1].data == es[|cs|]
    ensures 1 in ss[|evs|].stopped <==> ChecksumInput(ds[|cs|]) != ChecksumInput(es[|cs|])
  {
    hide Step, Round, RoundEvent, Leads, Asked, Met, ChecksumInput, Initial;
    LeadsShape(init, cs, at, ds);
    LeadsShape(init, cs, later, es);
    var n := 3 * (|cs| + 1);
    ss := seq(n + 1, j requires 0 <= j < n + 1 => Round(cs, ds, es, j)) + [Asked(cs, ds, es), Met(cs, ds, es)];
    evs := seq(n, j requires 0 <= j < n => RoundEvent(cs, at, later, j))
           + [Commit(VerifyChecksum(|cs| + 1, SumOf(cs, ds).sum, 0)), Deliver(1, |cs| + 2, 1)];
    forall i | 0 <= i < |evs| ensures Step(init, ss[i], evs[i], ss[i + 1]) {
      if i < n {
        RoundStep(init, cs, ds, es, at, later, i);
      } else if i == n {
        AskStep(init, cs, ds, es);
      } else {
        MeetStep(init, cs, ds, es);
      }
    }
    RoundStarts(init, cs, ds, es);
    MetIs(cs, ds, es);
  }

  lemma MetIs(cs: seq<Cmd>, ds: seq<Meta>, es: seq<Meta>)
    requires |ds| == |es| == |cs| + 1
    ensures var s := Met(cs, ds, es);
            && 0 in s.replicas && 1 in s.replicas && 0 !in s.stopped
            && s.replicas[0].data == ds[|cs|] && s.replicas[1].data == es[|cs|]
            && (1 in s.stopped <==> ChecksumInput(ds[|cs|]) != ChecksumInput(es[|cs|]))
  {
    hide ChecksumInput, LogOf;
  }
}
