/**
 The apply loop of every metadata replica over one committed log: entries may be
 delivered again, snapshots are stored, sent and restored, replicas restart. Raft is
 taken at its word: the committed log only grows, every replica is handed its entries
 without gaps, and a snapshot that is sent was stored by some replica.
 */
module ReplicaRuns {
  import opened Bytes
  import opened Determinism
  import opened MetaModel
  import opened MetaOps

  datatype Entry =
    | Command(c: Cmd)
    | SnapShot
    | CreateChecksum
    | VerifyChecksum(index: nat, sum: Meta, node: nat)
    | NoEffect

  datatype Snapshot = Snapshot(index: nat, data: Meta)

  datatype Checksum = Checksum(index: nat, sum: Meta)

  /**
   What a replica keeps. `stored` survives a restart, the rest does not. While
   `restoring`, the applied index is already that of the snapshot but the data is not.
   */
  datatype Replica = Replica(
    data: Meta,
    applied: nat,
    stored: Option<Snapshot>,
    checksum: Option<Checksum>,
    restoring: bool)

  /** The metadata after the first `k` entries, on a replica whose clock always says 1. */
  ghost function Fold(init: Meta, log: seq<Entry>, k: nat): (d: Meta)
    requires k <= |log|
  {
    if k == 0 then init
    else
      var d := Fold(init, log, k - 1);
      match log[k - 1]
      case Command(c) => Apply(d, c, 1).meta
      case _ => d
  }

  /** `applyCommitted` and `setAppliedIndex` for the next entry. */
  ghost function ApplyEntry(r: Replica, e: Entry, now: int): (s: Replica) {
    var i := r.applied + 1;
    match e
    case Command(c) => r.(data := Apply(r.data, c, now).meta, applied := i)
    case SnapShot =>
      // the log storage refuses a snapshot older than the one it has
      if r.stored.Some? && i <= r.stored.value.index then r.(applied := i)
      else r.(stored := Some(Snapshot(i, r.data)), applied := i)
    case CreateChecksum => r.(checksum := Some(Checksum(i, ChecksumInput(r.data))), applied := i)
    case VerifyChecksum(_, _, _) => r.(applied := i)
    case NoEffect => r.(applied := i)
  }

  /** The assertion `VerifyChecksumMsg` makes on replica `id`; a failure stops the process. */
  predicate VerifyPasses(id: nat, r: Replica, e: Entry) {
    e.VerifyChecksum? && e.node != id && r.checksum.Some? && r.checksum.value.index == e.index ==>
      r.checksum.value.sum == e.sum
  }

  /** `processApplyCh` on entry number `i`: old entries are ignored. */
  ghost function OnEntry(r: Replica, i: nat, e: Entry, now: int): (s: Replica)
    requires i <= r.applied + 1
  {
    if i <= r.applied then r else ApplyEntry(r, e, now)
  }

  /** `PastLife` and `restoreFromSnapshot` of a process that starts again. */
  function Restarted(init: Meta, r: Replica): (s: Replica) {
    match r.stored
    case None => Replica(init, 0, None, None, false)
    case Some(snap) => Replica(snap.data, snap.index, r.stored, None, false)
  }

  /** `sums` are the checksums ever taken; `stopped` are the replicas whose process has ended. */
  datatype System = System(log: seq<Entry>, replicas: map<nat, Replica>, sums: set<Checksum>, stopped: set<nat>)

  datatype Event =
    | Commit(e: Entry)
    | Deliver(id: nat, index: nat, now: int)
    | Install(id: nat, from: nat)
    | RestoreBegin(id: nat)
    | RestoreEnd(id: nat)
    | Restart(id: nat)

  ghost predicate Step(init: Meta, s: System, ev: Event, t: System) {
    match ev
    case Commit(e) =>
      // a replica only asks to verify a checksum that it has taken
      && (e.VerifyChecksum? ==> Checksum(e.index, e.sum) in s.sums)
      && t == s.(log := s.log + [e])
    case Deliver(id, i, now) =>
      && id in s.replicas && id !in s.stopped && !s.replicas[id].restoring && now != 0
      && 0 < i <= |s.log| && i <= s.replicas[id].applied + 1
      && if i == s.replicas[id].applied + 1 && !VerifyPasses(id, s.replicas[id], s.log[i - 1])
         then t == s.(stopped := s.stopped + {id})
         else
           var r := OnEntry(s.replicas[id], i, s.log[i - 1], now);
           t == s.(replicas := s.replicas[id := r],
                   sums := if r.checksum.Some? then s.sums + {r.checksum.value} else s.sums)
    case Install(id, from) =>
      && id in s.replicas && from in s.replicas && id !in s.stopped && !s.replicas[id].restoring
      && s.replicas[from].stored.Some?
      && t == s.(replicas := s.replicas[id := s.replicas[id].(stored := s.replicas[from].stored)])
    case RestoreBegin(id) =>
      && id in s.replicas && id !in s.stopped && !s.replicas[id].restoring && s.replicas[id].stored.Some?
      && t == s.(replicas := s.replicas[id :=
                   s.replicas[id].(applied := s.replicas[id].stored.value.index, restoring := true)])
    case RestoreEnd(id) =>
      && id in s.replicas && id !in s.stopped && s.replicas[id].restoring && s.replicas[id].stored.Some?
      && t == s.(replicas := s.replicas[id :=
                   s.replicas[id].(data := s.replicas[id].stored.value.data, restoring := false)])
    case Restart(id) =>
      && id in s.replicas
      && t == s.(replicas := s.replicas[id := Restarted(init, s.replicas[id])], stopped := s.stopped - {id})
  }

  /**
   A prune that is applied calls the same groups expired as it does on the log's own
   replica. Deletion stamps are taken from each replica's clock, so it need not.
   */
  ghost predicate PruneAgrees(init: Meta, s: System, ev: Event) {
    && ev.Deliver? && ev.id in s.replicas && ev.index == s.replicas[ev.id].applied + 1 <= |s.log|
    && s.log[ev.index - 1].Command? && s.log[ev.index - 1].c.PruneShardGroups? ==>
      var r := s.replicas[ev.id];
      SamePruned(r.data, Fold(init, s.log, r.applied), s.log[r.applied].c.expiration)
  }

  // ---------- what every step keeps ----------

  ghost predicate Follows(init: Meta, log: seq<Entry>, d: Meta, k: nat) {
    k <= |log| && Agree(d, Fold(init, log, k))
  }

  ghost predicate SumOk(init: Meta, log: seq<Entry>, c: Checksum) {
    c.index <= |log| && c.sum == ChecksumInput(Fold(init, log, c.index))
  }

  ghost predicate ReplicaOk(init: Meta, log: seq<Entry>, r: Replica) {
    && r.applied <= |log|
    && (r.stored.Some? ==> Follows(init, log, r.stored.value.data, r.stored.value.index))
    && (r.restoring ==> r.stored.Some? && r.applied == r.stored.value.index)
    && (!r.restoring ==> Follows(init, log, r.data, r.applied))
    && (r.checksum.Some? ==> SumOk(init, log, r.checksum.value))
  }

  ghost predicate LogOk(init: Meta, log: seq<Entry>) {
    forall i :: 0 <= i < |log| && log[i].VerifyChecksum? ==> SumOk(init, log, Checksum(log[i].index, log[i].sum))
  }

  ghost predicate Inv(init: Meta, s: System) {
    && LogOk(init, s.log)
    && (forall id :: id in s.replicas ==> ReplicaOk(init, s.log, s.replicas[id]))
    && (forall c :: c in s.sums ==> SumOk(init, s.log, c))
  }

  lemma {:induction false} FoldOfPrefix(init: Meta, log: seq<Entry>, e: Entry, k: nat)
    requires k <= |log|
    ensures Fold(init, log + [e], k) == Fold(init, log, k)
  {
    if k > 0 {
      FoldOfPrefix(init, log, e, k - 1);
      assert (log + [e])[k - 1] == log[k - 1];
    }
  }

  lemma LogGrows(init: Meta, log: seq<Entry>, e: Entry)
    ensures forall d, k :: Follows(init, log, d, k) ==> Follows(init, log + [e], d, k)
    ensures forall c :: SumOk(init, log, c) ==> SumOk(init, log + [e], c)
  {
    forall k: nat | k <= |log| ensures Fold(init, log + [e], k) == Fold(init, log, k) {
      FoldOfPrefix(init, log, e, k);
    }
  }

  lemma CommitKeepsInv(init: Meta, s: System, ev: Event, t: System)
    requires Inv(init, s) && ev.Commit? && Step(init, s, ev, t)
    ensures Inv(init, t)
  {
    hide Follows, SumOk, Fold;
    LogGrows(init, s.log, ev.e);
    forall id | id in t.replicas ensures ReplicaOk(init, t.log, t.replicas[id]) {
      assert ReplicaOk(init, s.log, s.replicas[id]);
    }
  }

  /** Applying the next entry keeps a replica in step with the log, whatever its clock says. */
  lemma ApplyEntryOk(init: Meta, log: seq<Entry>, r: Replica, now: int)
    requires ReplicaOk(init, log, r) && !r.restoring && now != 0
    requires r.applied < |log|
    requires log[r.applied].Command? && log[r.applied].c.PruneShardGroups? ==>
               SamePruned(r.data, Fold(init, log, r.applied), log[r.applied].c.expiration)
    ensures ReplicaOk(init, log, ApplyEntry(r, log[r.applied], now))
  {
    hide Apply, Agree, ChecksumInput, SumOk, SamePruned;
    var i, e := r.applied + 1, log[r.applied];
    var d := Fold(init, log, r.applied);
    if e.Command? {
      if e.c.PruneShardGroups? {
        PruneKeepsAgreement(r.data, d, e.c.expiration, now, 1);
      } else {
        ReplicasStayInAgreement(r.data, d, e.c, now, 1);
      }
    } else if e.CreateChecksum? {
      AgreeSameChecksum(r.data, d);
      ChecksumIsOk(init, log, i);
    }
  }

  /** A prune leaves a replica in step with the log exactly if it calls the same groups expired. */
  lemma PruneFollowsExact(init: Meta, log: seq<Entry>, r: Replica, now: int)
    requires ReplicaOk(init, log, r) && !r.restoring && r.applied < |log| && IdsDistinct(r.data)
    requires log[r.applied].Command? && log[r.applied].c.PruneShardGroups?
    ensures Follows(init, log, ApplyEntry(r, log[r.applied], now).data, r.applied + 1) <==>
              SamePruned(r.data, Fold(init, log, r.applied), log[r.applied].c.expiration)
  {
    hide Apply, Agree, SumOk, SamePruned, IdsDistinct;
    PruneAgreementExact(r.data, Fold(init, log, r.applied), log[r.applied].c.expiration, now, 1);
  }

  lemma ChecksumIsOk(init: Meta, log: seq<Entry>, i: nat)
    requires i <= |log|
    ensures SumOk(init, log, Checksum(i, ChecksumInput(Fold(init, log, i))))
  {
  }

  lemma StepKeepsInv(init: Meta, s: System, ev: Event, t: System)
    requires Inv(init, s) && Step(init, s, ev, t) && PruneAgrees(init, s, ev)
    ensures Inv(init, t)
  {
    hide Fold, Agree, SumOk, LogOk, ApplyEntry, Follows, SamePruned;
    match ev {
      case Commit(_) => CommitKeepsInv(init, s, ev, t);
      case Deliver(id, i, now) =>
        assert ReplicaOk(init, s.log, s.replicas[id]);
        if i == s.replicas[id].applied + 1 {
          ApplyEntryOk(init, s.log, s.replicas[id], now);
        }
      case Install(id, from) =>
        assert ReplicaOk(init, s.log, s.replicas[id]) && ReplicaOk(init, s.log, s.replicas[from]);
      case RestoreBegin(id) => 
        assert ReplicaOk(init, s.log, s.replicas[id]);
        StoredInLog(init, s.log, s.replicas[id]);
      case RestoreEnd(id) => assert ReplicaOk(init, s.log, s.replicas[id]);
      case Restart(id) =>
        assert ReplicaOk(init, s.log, s.replicas[id]);
        StoredInLog(init, s.log, s.replicas[id]);
        InitFollows(init, s.log);
    }
  }

  lemma StoredInLog(init: Meta, log: seq<Entry>, r: Replica)
    requires ReplicaOk(init, log, r)
    ensures r.stored.Some? ==> r.stored.value.index <= |log|
  {
  }

  lemma InitFollows(init: Meta, log: seq<Entry>)
    ensures Follows(init, log, init, 0)
  {
  }

  // ---------- runs ----------

  ghost predicate Initial(init: Meta, s: System) {
    && s.log == [] && s.sums == {} && s.stopped == {}
    && forall id :: id in s.replicas ==> s.replicas[id] == Replica(init, 0, None, None, false)
  }

  ghost predicate Run(init: Meta, ss: seq<System>, es: seq<Event>) {
    && |ss| == |es| + 1 && Initial(init, ss[0])
    && forall i :: 0 <= i < |es| ==> Step(init, ss[i], es[i], ss[i + 1])
  }

  /** Every prune of the run agrees. */
  ghost predicate PrunesAgree(init: Meta, ss: seq<System>, es: seq<Event>)
    requires |es| < |ss|
  {
    forall i :: 0 <= i < |es| ==> PruneAgrees(init, ss[i], es[i])
  }

  predicate NoPrune(log: seq<Entry>) {
    forall i :: 0 <= i < |log| ==> !(log[i].Command? && log[i].c.PruneShardGroups?)
  }

  /** So do all prunes of a run without any. */
  lemma {:induction false} WithoutPrunes(init: Meta, ss: seq<System>, es: seq<Event>)
    requires Run(init, ss, es) && NoPrune(ss[|es|].log)
    ensures PrunesAgree(init, ss, es)
  {
    hide SamePruned;
    forall i | 0 <= i < |es| ensures PruneAgrees(init, ss[i], es[i]) {
      LogIsPrefix(init, ss, es, i, |es|);
    }
  }

  lemma {:induction false} LogIsPrefix(init: Meta, ss: seq<System>, es: seq<Event>, i: nat, j: nat)
    requires Run(init, ss, es) && i <= j < |ss|
    ensures ss[i].log <= ss[j].log
    decreases j - i
  {
    if i < j {
      hide Step;
      LogIsPrefix(init, ss, es, i, j - 1);
      assert Step(init, ss[j - 1], es[j - 1], ss[(j - 1) + 1]);
      StepKeepsLog(init, ss[j - 1], es[j - 1], ss[j]);
    }
  }

  lemma StepKeepsLog(init: Meta, s: System, ev: Event, t: System)
    requires Step(init, s, ev, t)
    ensures s.log <= t.log && (!ev.Commit? ==> t.log == s.log)
  {
  }

  lemma {:induction false} RunKeepsInv(init: Meta, ss: seq<System>, es: seq<Event>, i: nat)
    requires Run(init, ss, es) && PrunesAgree(init, ss, es) && i < |ss|
    ensures Inv(init, ss[i])
  {
    hide Step, ReplicaOk, PruneAgrees;
    if i == 0 {
      forall id | id in ss[0].replicas ensures ReplicaOk(init, [], ss[0].replicas[id]) {
        FreshReplicaOk(init);
      }
    } else {
      RunKeepsInv(init, ss, es, i - 1);
      StepKeepsInv(init, ss[i - 1], es[i - 1], ss[(i - 1) + 1]);
    }
  }

  lemma FreshReplicaOk(init: Meta)
    ensures ReplicaOk(init, [], Replica(init, 0, None, None, false))
  {
  }

  /**
   In every state of every run whose prunes agree, a replica holds the metadata of the log
   up to its applied index if and only if it is not in the middle of a restore, or had the
   snapshot's data already. A stored snapshot holds those up to its own index; hence a
   snapshot followed by the rest of the log is the whole log.
   */
  lemma ReplicaFollowsLog(init: Meta, ss: seq<System>, es: seq<Event>, i: nat, id: nat)
    requires Run(init, ss, es) && PrunesAgree(init, ss, es) && i < |ss| && id in ss[i].replicas
    ensures var r := ss[i].replicas[id];
            && (r.restoring ==> r.stored.Some?)
            && (Follows(init, ss[i].log, r.data, r.applied) <==> !r.restoring || Agree(r.data, r.stored.value.data))
            && (r.stored.Some? ==> Follows(init, ss[i].log, r.stored.value.data, r.stored.value.index))
  {
    hide Run, Fold, Norm;
    RunKeepsInv(init, ss, es, i);
    FollowsExact(init, ss[i].log, ss[i].replicas[id]);
  }

  lemma FollowsExact(init: Meta, log: seq<Entry>, r: Replica)
    requires ReplicaOk(init, log, r)
    ensures Follows(init, log, r.data, r.applied) <==> !r.restoring || Agree(r.data, r.stored.value.data)
  {
    hide Fold, Norm, SumOk;
  }

  /** Two replicas that have applied equally much agree up to deletion stamps. */
  lemma ReplicasConverge(init: Meta, ss: seq<System>, es: seq<Event>, i: nat, a: nat, b: nat)
    requires Run(init, ss, es) && PrunesAgree(init, ss, es) && i < |ss| && a in ss[i].replicas && b in ss[i].replicas
    requires !ss[i].replicas[a].restoring && !ss[i].replicas[b].restoring
    requires ss[i].replicas[a].applied == ss[i].replicas[b].applied
    ensures Agree(ss[i].replicas[a].data, ss[i].replicas[b].data)
  {
    hide Run, Fold, PrunesAgree;
    ReplicaFollowsLog(init, ss, es, i, a);
    ReplicaFollowsLog(init, ss, es, i, b);
  }

  /** The checksum assertion never fails on any replica that reaches a verify entry. */
  lemma VerifyPassesInRuns(init: Meta, ss: seq<System>, es: seq<Event>, i: nat, id: nat, k: nat)
    requires Run(init, ss, es) && PrunesAgree(init, ss, es) && i < |ss| && id in ss[i].replicas && k < |ss[i].log|
    ensures VerifyPasses(id, ss[i].replicas[id], ss[i].log[k])
  {
    hide Run, Fold, ChecksumInput, Follows, PrunesAgree;
    RunKeepsInv(init, ss, es, i);
    assert ReplicaOk(init, ss[i].log, ss[i].replicas[id]);
  }

  /** As long as the prunes agree no replica is ever stopped. */
  lemma {:induction false} VerifyNeverFails(init: Meta, ss: seq<System>, es: seq<Event>, i: nat)
    requires Run(init, ss, es) && PrunesAgree(init, ss, es) && i < |ss|
    ensures ss[i].stopped == {}
  {
    hide ApplyEntry, Fold, Agree, ChecksumInput, VerifyPasses, PrunesAgree;
    if i > 0 {
      VerifyNeverFails(init, ss, es, i - 1);
      assert Step(init, ss[i - 1], es[i - 1], ss[(i - 1) + 1]);
      match es[i - 1]
      case Deliver(id, k, _) => VerifyPassesInRuns(init, ss, es, i - 1, id, k - 1);
      case _ =>
    }
  }

  /** The stages of a snapshot that reaches replica 1 before any entry does; `d` is the state after the one command. */
  ghost function Gap(init: Meta, c: Cmd, k: nat): (s: System) {
    var d := Apply(init, c, 1).meta;
    var empty := Replica(init, 0, None, None, false);
    var ahead := Replica(d, 2, Some(Snapshot(2, d)), None, false);
    if k == 0 then System([], map[0 := empty, 1 := empty], {}, {})
    else if k == 1 then System([Command(c)], map[0 := empty, 1 := empty], {}, {})
    else
      var log := [Command(c), SnapShot];
      if k == 2 then System(log, map[0 := empty, 1 := empty], {}, {})
      else if k == 3 then System(log, map[0 := Replica(d, 1, None, None, false), 1 := empty], {}, {})
      else if k == 4 then System(log, map[0 := ahead, 1 := empty], {}, {})
      else if k == 5 then System(log, map[0 := ahead, 1 := empty.(stored := ahead.stored)], {}, {})
      else System(log, map[0 := ahead, 1 := Replica(init, 2, ahead.stored, None, true)], {}, {})
  }

  lemma GapCommits(init: Meta, c: Cmd)
    ensures Step(init, Gap(init, c, 0), Commit(Command(c)), Gap(init, c, 1))
    ensures Step(init, Gap(init, c, 1), Commit(SnapShot), Gap(init, c, 2))
  {
    hide Apply, Norm, Agree, ChecksumInput;
    assert [] + [Command(c)] == [Command(c)];
  }

  lemma GapDeliveries(init: Meta, c: Cmd)
    ensures Step(init, Gap(init, c, 2), Deliver(0, 1, 1), Gap(init, c, 3))
    ensures Step(init, Gap(init, c, 3), Deliver(0, 2, 1), Gap(init, c, 4))
  {
    hide Apply, Norm, Agree, ChecksumInput;
  }

  lemma GapInstalls(init: Meta, c: Cmd)
    ensures Step(init, Gap(init, c, 4), Install(1, 0), Gap(init, c, 5))
    ensures Step(init, Gap(init, c, 5), RestoreBegin(1), Gap(init, c, 6))
  {
    hide Apply, Norm, Agree, ChecksumInput;
  }

  /**
   In the middle of a restore the applied index, which linearizable reads go by, can be
   ahead of the data: here replica 1 claims both entries while it still has none.
   */
  lemma RestoreGap(init: Meta, c: Cmd) returns (ss: seq<System>, es: seq<Event>)
    requires !c.PruneShardGroups? && Apply(init, c, 1).meta.index != init.index
    ensures Run(init, ss, es) && PrunesAgree(init, ss, es) && 1 in ss[|es|].replicas && |ss[|es|].log| == 2
    ensures var r := ss[|es|].replicas[1];
            r.restoring && r.applied == 2 && !Follows(init, ss[|es|].log, r.data, r.applied)
  {
    hide Apply, Norm, Agree, ChecksumInput, Step, PrunesAgree;
    GapCommits(init, c);
    GapDeliveries(init, c);
    GapInstalls(init, c);
    ss := [Gap(init, c, 0), Gap(init, c, 1), Gap(init, c, 2), Gap(init, c, 3), Gap(init, c, 4), Gap(init, c, 5), Gap(init, c, 6)];
    es := [Commit(Command(c)), Commit(SnapShot), Deliver(0, 1, 1), Deliver(0, 2, 1), Install(1, 0), RestoreBegin(1)];
    WithoutPrunes(init, ss, es);
    GapIsBehind(init, c);
  }

  lemma GapIsBehind(init: Meta, c: Cmd)
    requires Apply(init, c, 1).meta.index != init.index
    ensures !Follows(init, Gap(init, c, 6).log, init, 2)
  {
    hide Apply, Norm, Agree;
    var log, d := Gap(init, c, 6).log, Apply(init, c, 1).meta;
    assert Fold(init, log, 2) == Fold(init, log, 1) == Apply(Fold(init, log, 0), c, 1).meta == d;
    DifferentIndex(init, d);
  }

  lemma DifferentIndex(d: Meta, e: Meta)
    requires d.index != e.index
    ensures !Agree(d, e)
  {
    assert Norm(d).index == d.index && Norm(e).index == e.index;
  }
}
