/**
 What a linearizable read sees: the read protocol of raftmeta/linearizable_read.go running
 on one replica of raftmeta/node.go. One run holds both; they share the committed log and
 the applied index, and a step that changes either is a step of both.
 */
module ReadData {
  import opened Determinism
  import opened MetaModel
  import opened MetaOps
  import L = LinearizableRead
  import R = ReplicaRuns

  datatype Joint = Joint(read: L.State, sys: R.System)

  datatype Event =
    // readers, read loop and the wake-up of waits
    | Reading(e: L.Event)
    // the other replicas, old entries, snapshots that arrive and the end of a restore
    | Replicating(f: R.Event)
    // raft commits an entry
    | Grow(entry: R.Entry)
    // the replica of the readers applies the next entry, or begins a restore
    | Move(f: R.Event)

  /** The step moves the applied index of replica `id`; the other steps leave it alone. */
  predicate Moves(s: R.System, f: R.Event, id: nat) {
    || (f.Deliver? && f.id == id && id in s.replicas && f.index == s.replicas[id].applied + 1)
    || (f.RestoreBegin? && f.id == id)
  }

  ghost predicate Step(init: Meta, id: nat, s: Joint, ev: Event, t: Joint) {
    match ev
    case Reading(e) => !e.Commit? && !e.StoreApplied? && L.Step(s.read, e, t.read) && t.sys == s.sys
    case Replicating(f) =>
      && !f.Commit? && !Moves(s.sys, f, id)
      // the process goes on, and the goroutine that restores has announced the index
      && f != R.Restart(id) && (f == R.RestoreEnd(id) ==> !s.read.storing)
      && R.Step(init, s.sys, f, t.sys) && t.read == s.read
    case Grow(entry) =>
      L.Step(s.read, L.Commit(|s.sys.log| + 1), t.read) && R.Step(init, s.sys, R.Commit(entry), t.sys)
    case Move(f) =>
      && Moves(s.sys, f, id) && R.Step(init, s.sys, f, t.sys) && id in t.sys.replicas && id !in t.sys.stopped
      && L.Step(s.read, L.StoreApplied(t.sys.replicas[id].applied), t.read)
  }

  ghost predicate Run(init: Meta, id: nat, js: seq<Joint>, es: seq<Event>) {
    && |js| == |es| + 1
    && L.Initial(js[0].read) && js[0].read.commit == 0 && R.Initial(init, js[0].sys) && id in js[0].sys.replicas
    && forall i :: 0 <= i < |es| ==> Step(init, id, js[i], es[i], js[i + 1])
  }

  /** The protocol reads off the replica it runs on. */
  ghost predicate Tied(id: nat, s: Joint) {
    id in s.sys.replicas && s.read.applied == s.sys.replicas[id].applied && s.read.commit == |s.sys.log|
  }

  lemma StepKeepsTied(init: Meta, id: nat, s: Joint, ev: Event, t: Joint)
    requires Tied(id, s) && Step(init, id, s, ev, t)
    ensures Tied(id, t) && s.sys.log <= t.sys.log
  {
    hide Apply, ChecksumInput;
    match ev {
      case Reading(e) => ReadingKeeps(s.read, e, t.read);
      case Replicating(f) =>
      case Grow(_) =>
      case Move(_) =>
    }
  }

  lemma ReadingKeeps(s: L.State, e: L.Event, t: L.State)
    requires L.Step(s, e, t) && !e.Commit? && !e.StoreApplied?
    ensures t.applied == s.applied && t.commit == s.commit
  {
  }

  lemma {:induction false} RunKeepsTied(init: Meta, id: nat, js: seq<Joint>, es: seq<Event>, i: nat)
    requires Run(init, id, js, es) && i < |js|
    ensures Tied(id, js[i])
  {
    if i > 0 {
      hide Step;
      RunKeepsTied(init, id, js, es, i - 1);
      StepKeepsTied(init, id, js[i - 1], es[i - 1], js[(i - 1) + 1]);
    }
  }

  lemma {:induction false} LogOnlyGrows(init: Meta, id: nat, js: seq<Joint>, es: seq<Event>, i: nat, j: nat)
    requires Run(init, id, js, es) && i <= j < |js|
    ensures js[i].sys.log <= js[j].sys.log
    decreases j - i
  {
    hide Step, Tied;
    if i < j {
      LogOnlyGrows(init, id, js, es, i, j - 1);
      RunKeepsTied(init, id, js, es, j - 1);
      StepKeepsTied(init, id, js[j - 1], es[j - 1], js[(j - 1) + 1]);
    }
  }

  // ---------- both halves of a run ----------

  /** The part of a step that the read protocol takes; standing still is a commit of nothing. */
  ghost function ReadPart(id: nat, s: Joint, ev: Event, t: Joint): (e: L.Event) {
    match ev
    case Reading(e) => e
    case Replicating(_) => L.Commit(s.read.commit)
    case Grow(_) => L.Commit(|s.sys.log| + 1)
    case Move(_) => L.StoreApplied(t.read.applied)
  }

  ghost function Reads(js: seq<Joint>): (ss: seq<L.State>) {
    seq(|js|, i requires 0 <= i < |js| => js[i].read)
  }

  ghost function ReadParts(id: nat, js: seq<Joint>, es: seq<Event>): (fs: seq<L.Event>)
    requires |js| == |es| + 1
  {
    seq(|es|, i requires 0 <= i < |es| => ReadPart(id, js[i], es[i], js[i + 1]))
  }

  lemma ReadPartSteps(init: Meta, id: nat, s: Joint, ev: Event, t: Joint)
    requires Step(init, id, s, ev, t)
    ensures L.Step(s.read, ReadPart(id, s, ev, t), t.read)
  {
    hide R.Step;
  }

  /** Leaving the replicas out, a joint run is a run of the read protocol. */
  lemma ReadsRun(init: Meta, id: nat, js: seq<Joint>, es: seq<Event>)
    requires Run(init, id, js, es)
    ensures L.Run(Reads(js), ReadParts(id, js, es))
  {
    hide Step, L.Step, L.Initial, ReadPart;
    var ss, fs := Reads(js), ReadParts(id, js, es);
    forall i | 0 <= i < |fs| ensures L.Step(ss[i], fs[i], ss[i + 1]) {
      ReadPartSteps(init, id, js[i], es[i], js[i + 1]);
    }
  }

  /** The prunes of the run agree, as in `ReplicaRuns`. */
  ghost predicate PrunesAgree(init: Meta, js: seq<Joint>, es: seq<Event>)
    requires |es| < |js|
  {
    forall i :: 0 <= i < |es| && (es[i].Replicating? || es[i].Move?) ==> R.PruneAgrees(init, js[i].sys, es[i].f)
  }

  lemma {:induction false} RunKeepsReplicas(init: Meta, id: nat, js: seq<Joint>, es: seq<Event>, i: nat)
    requires Run(init, id, js, es) && PrunesAgree(init, js, es) && i < |js|
    ensures R.Inv(init, js[i].sys)
  {
    hide R.Step, R.Inv, R.PruneAgrees, L.Step, R.Initial;
    if i == 0 {
      var rs := [js[0].sys];
      assert R.Run(init, rs, []);
      R.RunKeepsInv(init, rs, [], 0);
    } else {
      RunKeepsReplicas(init, id, js, es, i - 1);
      assert Step(init, id, js[i - 1], es[i - 1], js[(i - 1) + 1]);
      var s, t := js[i - 1].sys, js[i].sys;
      match es[i - 1] {
        case Reading(_) =>
        case Replicating(f) => R.StepKeepsInv(init, s, f, t);
        case Grow(entry) =>
          CommitAgrees(init, s, entry);
          R.StepKeepsInv(init, s, R.Commit(entry), t);
        case Move(f) => R.StepKeepsInv(init, s, f, t);
      }
    }
  }

  lemma CommitAgrees(init: Meta, s: R.System, entry: R.Entry)
    ensures R.PruneAgrees(init, s, R.Commit(entry))
  {
  }

  // ---------- what a successful call finds ----------

  /** A call of reader `r` begins at step `i` and returns nil at step `j`. */
  ghost predicate SuccessfulCall(js: seq<Joint>, es: seq<Event>, r: nat, i: nat, j: nat) {
    && |js| == |es| + 1 && i < j < |es| && es[i] == Reading(L.Begin(r)) && es[j] == Reading(L.Wake(r))
    && (forall k :: i < k < j ==> es[k] != Reading(L.Begin(r)))
    && r in js[j + 1].read.readers && js[j + 1].read.readers[r].Returned? && js[j + 1].read.readers[r].ok
  }

  lemma CallInReads(init: Meta, id: nat, js: seq<Joint>, es: seq<Event>, r: nat, i: nat, j: nat)
    requires Run(init, id, js, es) && SuccessfulCall(js, es, r, i, j)
    ensures js[i].read.commit <= js[j + 1].read.applied
  {
    hide Run, L.Run, Reads, ReadParts, ReadPart;
    ReadsRun(init, id, js, es);
    var ss, fs := Reads(js), ReadParts(id, js, es);
    ReadsAt(js, i);
    ReadsAt(js, j + 1);
    ReadPartsAt(id, js, es, i);
    ReadPartsAt(id, js, es, j);
    forall k | i < k < j ensures fs[k] != L.Begin(r) {
      ReadPartsAt(id, js, es, k);
      BeginIsReading(id, js[k], es[k], js[k + 1], r);
    }
    BeginIsReading(id, js[i], es[i], js[i + 1], r);
    WakeIsReading(id, js[j], es[j], js[j + 1], r);
    L.ReadSeesCommitted(ss, fs, r, i, j);
  }

  lemma BeginIsReading(id: nat, s: Joint, ev: Event, t: Joint, r: nat)
    ensures ReadPart(id, s, ev, t) == L.Begin(r) <==> ev == Reading(L.Begin(r))
  {
  }

  lemma WakeIsReading(id: nat, s: Joint, ev: Event, t: Joint, r: nat)
    ensures ReadPart(id, s, ev, t) == L.Wake(r) <==> ev == Reading(L.Wake(r))
  {
  }

  lemma ReadsAt(js: seq<Joint>, i: nat)
    requires i < |js|
    ensures |Reads(js)| == |js| && Reads(js)[i] == js[i].read
  {
  }

  lemma ReadPartsAt(id: nat, js: seq<Joint>, es: seq<Event>, i: nat)
    requires i < |es| && |js| == |es| + 1
    ensures |ReadParts(id, js, es)| == |es| && ReadParts(id, js, es)[i] == ReadPart(id, js[i], es[i], js[i + 1])
  {
    hide ReadPart;
  }

  /**
   When a call returns nil, the replica has applied everything that was committed when the
   call began, and the log up to there is what it was. The data hold it if and only if no
   restore is under way, or the replica had the snapshot's data already.
   */
  lemma ReadSeesLog(init: Meta, id: nat, js: seq<Joint>, es: seq<Event>, r: nat, i: nat, j: nat)
    requires Run(init, id, js, es) && PrunesAgree(init, js, es) && SuccessfulCall(js, es, r, i, j)
    ensures id in js[j + 1].sys.replicas
    ensures var log, x := js[j + 1].sys.log, js[j + 1].sys.replicas[id];
            && js[i].sys.log <= log && |js[i].sys.log| <= x.applied
            && (x.restoring ==> x.stored.Some?)
            && (R.Follows(init, log, x.data, x.applied) <==> !x.restoring || Agree(x.data, x.stored.value.data))
  {
    hide Run, PrunesAgree, R.Follows, Agree;
    CallInReads(init, id, js, es, r, i, j);
    RunKeepsTied(init, id, js, es, i);
    RunKeepsTied(init, id, js, es, j + 1);
    LogOnlyGrows(init, id, js, es, i, j + 1);
    RunKeepsReplicas(init, id, js, es, j + 1);
    assert R.ReplicaOk(init, js[j + 1].sys.log, js[j + 1].sys.replicas[id]);
    R.FollowsExact(init, js[j + 1].sys.log, js[j + 1].sys.replicas[id]);
  }

  // ---------- a call that returns in the middle of a restore ----------

  function Idle(commit: nat, applied: nat, triggered: nat, storing: bool): (s: L.State) {
    L.State(commit, applied, triggered, storing, 0, 1, map[], false, 1, map[], L.Top, map[])
  }

  /** A snapshot reaches replica 1, which begins to restore it; then a call comes and is served. */
  ghost function During(init: Meta, c: Cmd, k: nat): (s: Joint) {
    if k == 0 then Joint(Idle(0, 0, 0, false), R.Gap(init, c, 0))
    else if k == 1 then Joint(Idle(1, 0, 0, false), R.Gap(init, c, 1))
    else if k < 6 then Joint(Idle(2, 0, 0, false), R.Gap(init, c, k))
    else if k == 6 then Joint(Idle(2, 2, 0, true), R.Gap(init, c, 6))
    else Joint(L.Stage(2, k - 7), R.Gap(init, c, 6))
  }

  function Happening(c: Cmd, k: nat): (e: Event) {
    if k == 0 then Grow(R.Command(c))
    else if k == 1 then Grow(R.SnapShot)
    else if k == 2 then Replicating(R.Deliver(0, 1, 1))
    else if k == 3 then Replicating(R.Deliver(0, 2, 1))
    else if k == 4 then Replicating(R.Install(1, 0))
    else if k == 5 then Move(R.RestoreBegin(1))
    else if k == 6 then Reading(L.Trigger)
    else if k == 7 then Reading(L.Begin(0))
    else if k == 8 then Reading(L.LoadNotifier(0))
    else if k == 9 then Reading(L.SendToken(0))
    else if k == 10 then Reading(L.TakeToken)
    else if k == 11 then Reading(L.Swap)
    else if k == 12 then Reading(L.Ask)
    else if k == 13 then Reading(L.Answer(1, 2))
    else if k == 14 then Reading(L.Compare)
    else Reading(L.Wake(0))
  }

  lemma GapSizes(init: Meta, c: Cmd)
    ensures R.Gap(init, c, 0).log == [] && |R.Gap(init, c, 1).log| == 1
    ensures forall k :: 0 <= k <= 6 ==> 1 in R.Gap(init, c, k).replicas
    ensures R.Gap(init, c, 6).replicas[1].applied == 2 && R.Gap(init, c, 6).replicas[1].restoring
    ensures R.Gap(init, c, 6).replicas[1].data == init && R.Gap(init, c, 6).stopped == {}
  {
    hide Apply;
  }

  lemma ReplicaHappens(init: Meta, c: Cmd, k: nat)
    requires k < 6
    ensures Step(init, 1, During(init, c, k), Happening(c, k), During(init, c, k + 1))
  {
    hide R.Gap, R.Step;
    GapSizes(init, c);
    R.GapCommits(init, c);
    R.GapDeliveries(init, c);
    R.GapInstalls(init, c);
  }

  lemma CallHappens(init: Meta, c: Cmd, k: nat)
    requires 6 <= k < 16
    ensures Step(init, 1, During(init, c, k), Happening(c, k), During(init, c, k + 1))
  {
    hide R.Gap, L.Step, L.Stage;
    L.CallSteps(2);
    L.TakeSteps(2);
    L.AskSteps(2);
    L.WakeSteps(2);
    TriggerStep();
  }

  lemma TriggerStep()
    ensures L.Step(Idle(2, 2, 0, true), L.Trigger, L.Stage(2, 0))
  {
  }

  lemma DuringStarts(init: Meta, c: Cmd)
    ensures L.Initial(During(init, c, 0).read) && R.Initial(init, During(init, c, 0).sys)
    ensures During(init, c, 0).read.commit == 0 && 1 in During(init, c, 0).sys.replicas
  {
  }

  /**
   In one run: replica 1 begins to restore, a call begins with both entries committed, and
   returns nil while the data of the replica have none of them.
   */
  lemma ReadDuringRestore(init: Meta, c: Cmd) returns (js: seq<Joint>, es: seq<Event>)
    requires Apply(init, c, 1).meta.index != init.index
    ensures Run(init, 1, js, es) && |es| == 16 && SuccessfulCall(js, es, 0, 7, 15) && |js[7].sys.log| == 2
    ensures 1 in js[16].sys.replicas && js[16].sys.replicas[1].applied == 2
    ensures !R.Follows(init, js[16].sys.log, js[16].sys.replicas[1].data, 2)
  {
    hide Step, During, Happening, R.Follows, Apply;
    js := seq(17, k requires 0 <= k < 17 => During(init, c, k));
    es := seq(16, k requires 0 <= k < 16 => Happening(c, k));
    forall k | 0 <= k < 16 ensures Step(init, 1, js[k], es[k], js[k + 1]) {
      if k < 6 {
        ReplicaHappens(init, c, k);
      } else {
        CallHappens(init, c, k);
      }
    }
    DuringStarts(init, c);
    CallReturns(init, c);
    R.GapIsBehind(init, c);
  }

  lemma CallReturns(init: Meta, c: Cmd)
    ensures Happening(c, 7) == Reading(L.Begin(0)) && Happening(c, 15) == Reading(L.Wake(0))
    ensures forall k :: 7 < k < 15 ==> Happening(c, k) != Reading(L.Begin(0))
    ensures |During(init, c, 7).sys.log| == 2 && During(init, c, 16).sys == R.Gap(init, c, 6)
    ensures During(init, c, 16).read.readers == map[0 := L.Returned(true, 2)]
    ensures 1 in R.Gap(init, c, 6).replicas && R.Gap(init, c, 6).replicas[1].applied == 2
    ensures R.Gap(init, c, 6).replicas[1].data == init
  {
    hide Apply;
    L.StageEnds(2);
  }
}
