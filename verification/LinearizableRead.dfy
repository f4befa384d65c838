/**
 Linearizable reads of the metadata (raftmeta/linearizable_read.go) as a protocol:
 readers, the read loop and the apply loop interleave step by step. Raft is taken at
 its word: the commit index only grows, entries are applied after they are committed,
 and the answer to a read-index request is at least the commit index at the time the
 request was made.
 */
module LinearizableRead {

  /** One caller of `ReadNotify`; `since` is the commit index when its last call began. */
  datatype Reader =
    | Calling(since: nat)
    | Holding(nc: nat, since: nat)
    | Waiting(nc: nat, since: nat)
    | Returned(ok: bool, since: nat)

  /** Where `ReadLoop` is; `nr` is the notifier it has taken over. */
  datatype Loop =
    | Top
    | Taken
    | Swapped(nr: nat)
    | Asked(nr: nat, seqNo: nat)
    | Answered(nr: nat, index: nat)
    | Behind(nr: nat, index: nat)
    | Registered(nr: nat, index: nat, closed: bool)
    | Stopped

  datatype State = State(
    commit: nat,
    applied: nat,
    triggered: nat,
    storing: bool,
    current: nat,
    created: nat,
    fired: map<nat, bool>,
    token: bool,
    seqNo: nat,
    asked: map<nat, nat>,
    loop: Loop,
    readers: map<nat, Reader>)

  datatype Event =
    // raft and the apply loop
    | Commit(index: nat)
    | StoreApplied(index: nat)
    | Trigger
    // ReadNotify
    | Begin(r: nat)
    | LoadNotifier(r: nat)
    | SendToken(r: nat)
    | Wake(r: nat)
    | Cancel(r: nat)
    // ReadLoop
    | TakeToken
    | Swap
    | AskFails
    | Ask
    | Answer(seqNo: nat, index: nat)
    | GiveUp
    | Compare
    | Register
    | Notify
    | Stop

  /** `nr.notify(err)`; closing a channel twice would panic. */
  function Fire(s: State, nr: nat, ok: bool): (t: State) {
    s.(fired := s.fired[nr := ok], loop := Top)
  }

  ghost predicate Step(s: State, e: Event, t: State) {
    match e
    case Commit(i) => i >= s.commit && t == s.(commit := i)
    case StoreApplied(i) =>
      !s.storing && s.applied <= i <= s.commit && t == s.(applied := i, storing := true)
    case Trigger =>
      && s.storing
      && t == s.(triggered := s.applied, storing := false,
                 loop := if s.loop.Registered? && s.loop.index <= s.applied then s.loop.(closed := true) else s.loop)
    case Begin(r) =>
      (r in s.readers ==> s.readers[r].Returned?) && t == s.(readers := s.readers[r := Calling(s.commit)])
    case LoadNotifier(r) =>
      && r in s.readers && s.readers[r].Calling?
      && t == s.(readers := s.readers[r := Holding(s.current, s.readers[r].since)])
    case SendToken(r) =>
      && r in s.readers && s.readers[r].Holding?
      && t == s.(token := true, readers := s.readers[r := Waiting(s.readers[r].nc, s.readers[r].since)])
    case Wake(r) =>
      && r in s.readers && s.readers[r].Waiting? && s.readers[r].nc in s.fired
      && t == s.(readers := s.readers[r := Returned(s.fired[s.readers[r].nc], s.readers[r].since)])
    case Cancel(r) =>
      && r in s.readers && s.readers[r].Waiting?
      && t == s.(readers := s.readers[r := Returned(false, s.readers[r].since)])
    case TakeToken => s.loop.Top? && s.token && t == s.(token := false, loop := Taken)
    case Swap =>
      && s.loop.Taken?
      && t == s.(loop := Swapped(s.current), current := s.created, created := s.created + 1)
    case AskFails => s.loop.Swapped? && t == Fire(s.(seqNo := s.seqNo + 1), s.loop.nr, false)
    case Ask =>
      && s.loop.Swapped?
      && t == s.(seqNo := s.seqNo + 1, asked := s.asked[s.seqNo := s.commit], loop := Asked(s.loop.nr, s.seqNo))
    case Answer(n, i) =>
      && s.loop.Asked? && n in s.asked && s.asked[n] <= i <= s.commit
      // an answer to an earlier request is ignored
      && t == if n == s.loop.seqNo then s.(loop := Answered(s.loop.nr, i)) else s
    case GiveUp => s.loop.Asked? && t == Fire(s, s.loop.nr, false)
    case Compare =>
      && s.loop.Answered?
      && t == if s.applied < s.loop.index then s.(loop := Behind(s.loop.nr, s.loop.index)) else Fire(s, s.loop.nr, true)
    case Register =>
      && s.loop.Behind?
      && t == s.(loop := Registered(s.loop.nr, s.loop.index, s.triggered >= s.loop.index))
    case Notify => s.loop.Registered? && s.loop.closed && t == Fire(s, s.loop.nr, true)
    case Stop =>
      (s.loop.Top? || s.loop.Swapped? || s.loop.Asked? || s.loop.Registered?) && t == s.(loop := Stopped)
  }

  predicate Serving(l: Loop) {
    l.Swapped? || l.Asked? || l.Answered? || l.Behind? || l.Registered?
  }

  // ---------- the invariant ----------

  /** Notifiers: the current one and the one being served are distinct and not yet fired. */
  ghost predicate NotifiersOk(s: State) {
    && s.current < s.created && s.current !in s.fired
    && (forall n :: n in s.fired ==> n < s.created)
    && (Serving(s.loop) ==> s.loop.nr < s.created && s.loop.nr != s.current && s.loop.nr !in s.fired)
  }

  /** Index bookkeeping: a waiter whose index was reached has been, or is about to be, woken. */
  ghost predicate IndexOk(s: State) {
    && s.triggered <= s.applied <= s.commit
    && (!s.storing ==> s.triggered == s.applied)
    && (forall n :: n in s.asked ==> n < s.seqNo && s.asked[n] <= s.commit)
    && (s.loop.Asked? ==> s.loop.seqNo in s.asked)
    && (s.loop.Answered? || s.loop.Behind? || s.loop.Registered? ==> s.loop.index <= s.commit)
    && (s.loop.Registered? ==> (s.loop.closed <==> s.triggered >= s.loop.index))
  }

  /** How far reads on the notifier being served are bound to be. */
  ghost predicate Bound(s: State, since: nat) {
    match s.loop
    case Asked(_, n) => n in s.asked && since <= s.asked[n]
    case Answered(_, i) => since <= i
    case Behind(_, i) => since <= i
    case Registered(_, i, _) => since <= i
    case _ => true
  }

  ghost predicate ReaderOk(s: State, x: Reader) {
    && x.since <= s.commit
    && (x.Holding? || x.Waiting? ==>
          && x.nc < s.created
          && (x.nc in s.fired && s.fired[x.nc] ==> x.since <= s.applied)
          && (Serving(s.loop) && s.loop.nr == x.nc ==> Bound(s, x.since))
          && (x.nc in s.fired || x.nc == s.current || (Serving(s.loop) && s.loop.nr == x.nc) || s.loop.Stopped?))
    // no lost wake-up
    && (x.Waiting? && x.nc == s.current ==> s.token || s.loop.Taken? || s.loop.Stopped?)
    && (x.Returned? && x.ok ==> x.since <= s.applied)
  }

  ghost predicate Inv(s: State) {
    && NotifiersOk(s) && IndexOk(s)
    && forall r :: r in s.readers ==> ReaderOk(s, s.readers[r])
  }

  predicate MoveEvent(e: Event) {
    e.TakeToken? || e.Swap? || e.Ask? || e.Answer? || e.Register? || e.Stop?
  }

  predicate FireEvent(e: Event) {
    e.AskFails? || e.GiveUp? || e.Compare? || e.Notify?
  }

  predicate RaftEvent(e: Event) {
    e.Commit? || e.StoreApplied? || e.Trigger?
  }

  predicate ReaderEvent(e: Event) {
    e.Begin? || e.LoadNotifier? || e.SendToken? || e.Wake? || e.Cancel?
  }

  lemma NotifiersByMove(s: State, e: Event, t: State)
    requires NotifiersOk(s) && MoveEvent(e) && Step(s, e, t)
    ensures NotifiersOk(t)
  {
  }

  lemma FireNotifiers(s: State, ok: bool)
    requires NotifiersOk(s) && Serving(s.loop)
    ensures NotifiersOk(Fire(s, s.loop.nr, ok))
  {
  }

  lemma LoopNotifiers(s: State, loop: Loop, seqNo: nat)
    requires NotifiersOk(s) && Serving(s.loop) && Serving(loop) && loop.nr == s.loop.nr
    ensures NotifiersOk(s.(loop := loop, seqNo := seqNo))
  {
  }

  lemma NotifiersByFire(s: State, e: Event, t: State)
    requires NotifiersOk(s) && FireEvent(e) && Step(s, e, t)
    ensures NotifiersOk(t)
  {
    hide NotifiersOk;
    FireNotifiers(s, true);
    FireNotifiers(s, false);
    if e.AskFails? {
      LoopNotifiers(s, s.loop, s.seqNo + 1);
      FireNotifiers(s.(seqNo := s.seqNo + 1), false);
    } else if e.Compare? {
      LoopNotifiers(s, Behind(s.loop.nr, s.loop.index), s.seqNo);
    }
  }

  lemma NotifiersByRaft(s: State, e: Event, t: State)
    requires NotifiersOk(s) && RaftEvent(e) && Step(s, e, t)
    ensures NotifiersOk(t)
  {
  }

  lemma NotifiersByReader(s: State, e: Event, t: State)
    requires NotifiersOk(s) && ReaderEvent(e) && Step(s, e, t)
    ensures NotifiersOk(t)
  {
  }

  lemma IndexByMove(s: State, e: Event, t: State)
    requires IndexOk(s) && MoveEvent(e) && Step(s, e, t)
    ensures IndexOk(t)
  {
  }

  lemma IndexByFire(s: State, e: Event, t: State)
    requires IndexOk(s) && FireEvent(e) && Step(s, e, t)
    ensures IndexOk(t)
  {
  }

  lemma IndexByRaft(s: State, e: Event, t: State)
    requires IndexOk(s) && RaftEvent(e) && Step(s, e, t)
    ensures IndexOk(t)
  {
  }

  lemma IndexByReader(s: State, e: Event, t: State)
    requires IndexOk(s) && ReaderEvent(e) && Step(s, e, t)
    ensures IndexOk(t)
  {
  }

  lemma NotifiersKept(s: State, e: Event, t: State)
    requires NotifiersOk(s) && Step(s, e, t)
    ensures NotifiersOk(t)
  {
    hide NotifiersOk, Step;
    if MoveEvent(e) {
      NotifiersByMove(s, e, t);
    } else if FireEvent(e) {
      NotifiersByFire(s, e, t);
    } else if RaftEvent(e) {
      NotifiersByRaft(s, e, t);
    } else {
      NotifiersByReader(s, e, t);
    }
  }

  lemma IndexKept(s: State, e: Event, t: State)
    requires IndexOk(s) && Step(s, e, t)
    ensures IndexOk(t)
  {
    hide IndexOk, Step;
    if MoveEvent(e) {
      IndexByMove(s, e, t);
    } else if FireEvent(e) {
      IndexByFire(s, e, t);
    } else if RaftEvent(e) {
      IndexByRaft(s, e, t);
    } else {
      IndexByReader(s, e, t);
    }
  }

  lemma ReaderKeptByMove(s: State, e: Event, t: State, x: Reader)
    requires NotifiersOk(s) && IndexOk(s) && ReaderOk(s, x) && MoveEvent(e) && Step(s, e, t)
    ensures ReaderOk(t, x)
  {
  }

  /** Whoever waits on the notifier that is fired with success began at most where it was served. */
  lemma FireKeepsReader(s: State, ok: bool, x: Reader)
    requires NotifiersOk(s) && ReaderOk(s, x) && Serving(s.loop)
    requires ok ==> (s.loop.Answered? || s.loop.Registered?) && s.loop.index <= s.applied
    ensures ReaderOk(Fire(s, s.loop.nr, ok), x)
  {
  }

  lemma ReaderKeptByFire(s: State, e: Event, t: State, x: Reader)
    requires NotifiersOk(s) && IndexOk(s) && ReaderOk(s, x) && FireEvent(e) && Step(s, e, t)
    ensures ReaderOk(t, x)
  {
    match e {
      case AskFails => FireKeepsReader(s, false, x);
      case GiveUp => FireKeepsReader(s, false, x);
      case Notify => FireKeepsReader(s, true, x);
      case Compare =>
        if s.loop.index <= s.applied {
          FireKeepsReader(s, true, x);
        }
    }
  }

  lemma ReaderKeptByRaft(s: State, e: Event, t: State, x: Reader)
    requires IndexOk(s) && ReaderOk(s, x) && RaftEvent(e) && Step(s, e, t)
    ensures ReaderOk(t, x)
  {
  }

  lemma ReaderKeptByReaders(s: State, e: Event, t: State, r: nat)
    requires NotifiersOk(s) && IndexOk(s) && ReaderEvent(e) && Step(s, e, t) && r in t.readers
    requires r in s.readers ==> ReaderOk(s, s.readers[r])
    ensures ReaderOk(t, t.readers[r])
  {
  }

  lemma ReadersSame(s: State, e: Event, t: State)
    requires Step(s, e, t) && !ReaderEvent(e)
    ensures t.readers == s.readers
  {
  }

  lemma ReaderKept(s: State, e: Event, t: State, r: nat)
    requires Inv(s) && Step(s, e, t) && r in t.readers
    ensures ReaderOk(t, t.readers[r])
  {
    hide ReaderOk, NotifiersOk, IndexOk, Step;
    if !ReaderEvent(e) {
      ReadersSame(s, e, t);
    }
    if MoveEvent(e) {
      ReaderKeptByMove(s, e, t, s.readers[r]);
    } else if FireEvent(e) {
      ReaderKeptByFire(s, e, t, s.readers[r]);
    } else if RaftEvent(e) {
      ReaderKeptByRaft(s, e, t, s.readers[r]);
    } else {
      ReaderKeptByReaders(s, e, t, r);
    }
  }

  lemma StepKeepsInv(s: State, e: Event, t: State)
    requires Inv(s) && Step(s, e, t)
    ensures Inv(t)
  {
    hide ReaderOk, NotifiersOk, IndexOk, Step;
    NotifiersKept(s, e, t);
    IndexKept(s, e, t);
    forall r | r in t.readers ensures ReaderOk(t, t.readers[r]) {
      ReaderKept(s, e, t, r);
    }
  }

  // ---------- runs ----------

  ghost predicate Initial(s: State) {
    && s.applied == s.triggered && s.applied <= s.commit && !s.storing
    && s.current == 0 && s.created == 1 && s.fired == map[] && !s.token
    && s.seqNo == 1 && s.asked == map[] && s.loop == Top && s.readers == map[]
  }

  ghost predicate Run(ss: seq<State>, es: seq<Event>) {
    && |ss| == |es| + 1 && Initial(ss[0])
    && forall i :: 0 <= i < |es| ==> Step(ss[i], es[i], ss[i + 1])
  }

  lemma {:induction false} RunKeepsInv(ss: seq<State>, es: seq<Event>, i: nat)
    requires Run(ss, es) && i < |ss|
    ensures Inv(ss[i])
  {
    hide Step, Inv;
    if i == 0 {
      InitialInv(ss[0]);
    } else {
      RunKeepsInv(ss, es, i - 1);
      StepKeepsInv(ss[i - 1], es[i - 1], ss[(i - 1) + 1]);
    }
  }

  lemma InitialInv(s: State)
    requires Initial(s)
    ensures Inv(s)
  {
  }

  lemma SinceStays(s: State, e: Event, t: State, r: nat)
    requires Step(s, e, t) && r in s.readers && e != Begin(r)
    ensures r in t.readers && t.readers[r].since == s.readers[r].since
  {
  }

  /** `since` really is the commit index at the time the call began. */
  lemma {:induction false} SinceIsBegin(ss: seq<State>, es: seq<Event>, r: nat, i: nat, j: nat)
    requires Run(ss, es) && i < j < |ss| && es[i] == Begin(r)
    requires forall k :: i < k < j ==> es[k] != Begin(r)
    ensures r in ss[j].readers && ss[j].readers[r].since == ss[i].commit
  {
    if j == i + 1 {
      assert Step(ss[i], es[i], ss[i + 1]);
    } else {
      hide Step;
      SinceIsBegin(ss, es, r, i, j - 1);
      SinceStays(ss[j - 1], es[j - 1], ss[(j - 1) + 1], r);
    }
  }

  /**
   Linearizable read: in every interleaving, a call that returns without error does so
   when everything committed before the call began has been applied.
   */
  lemma ReadSeesCommitted(ss: seq<State>, es: seq<Event>, r: nat, i: nat, j: nat)
    requires Run(ss, es) && i < j < |es| && es[i] == Begin(r) && es[j] == Wake(r)
    requires forall k :: i < k < j ==> es[k] != Begin(r)
    requires ss[j + 1].readers[r].Returned? && ss[j + 1].readers[r].ok
    ensures ss[i].commit <= ss[j + 1].applied
  {
    hide Step;
    SinceIsBegin(ss, es, r, i, j + 1);
    RunKeepsInv(ss, es, j + 1);
    assert ReaderOk(ss[j + 1], ss[j + 1].readers[r]);
  }

  /** No notifier is fired twice: whenever the loop fires one, it has not been fired before. */
  lemma FiredAtMostOnce(ss: seq<State>, es: seq<Event>, i: nat, n: nat)
    requires Run(ss, es) && i < |es| && n in ss[i + 1].fired
    ensures n in ss[i].fired ==> ss[i + 1].fired[n] == ss[i].fired[n]
    ensures FireEvent(es[i]) ==> ss[i].loop.nr !in ss[i].fired
  {
    RunKeepsInv(ss, es, i);
    assert Step(ss[i], es[i], ss[i + 1]);
  }

  /**
   No lost wake-up: until the loop stops, whoever waits on a notifier that is not fired
   waits either on the current one, with a token on the way to the loop, or on the one
   the loop is serving.
   */
  lemma NoLostWakeUp(ss: seq<State>, es: seq<Event>, i: nat, r: nat)
    requires Run(ss, es) && i < |ss| && r in ss[i].readers && ss[i].readers[r].Waiting?
    requires !ss[i].loop.Stopped? && ss[i].readers[r].nc !in ss[i].fired
    ensures var s := ss[i];
            || (s.readers[r].nc == s.current && (s.token || s.loop.Taken?))
            || (Serving(s.loop) && s.loop.nr == s.readers[r].nc)
  {
    RunKeepsInv(ss, es, i);
    assert ReaderOk(ss[i], ss[i].readers[r]);
  }

  /** The loop is not left waiting for an index that has been reached and announced. */
  lemma NoLostTrigger(ss: seq<State>, es: seq<Event>, i: nat)
    requires Run(ss, es) && i < |ss| && ss[i].loop.Registered? && !ss[i].loop.closed
    ensures ss[i].loop.index <= ss[i].applied ==> ss[i].storing
  {
    RunKeepsInv(ss, es, i);
  }

  /** The stages of a call that waits, is served and returns nil, with everything up to `n` applied. */
  function Stage(n: nat, k: nat): (s: State) {
    var start := State(n, n, n, false, 0, 1, map[], false, 1, map[], Top, map[]);
    if k == 0 then start
    else if k == 1 then start.(readers := map[0 := Calling(n)])
    else if k == 2 then start.(readers := map[0 := Holding(0, n)])
    else
      var waiting := start.(readers := map[0 := Waiting(0, n)]);
      if k == 3 then waiting.(token := true)
      else if k == 4 then waiting.(loop := Taken)
      else
        var swapped := waiting.(current := 1, created := 2);
        if k == 5 then swapped.(loop := Swapped(0))
        else
          var asked := swapped.(seqNo := 2, asked := map[1 := n]);
          if k == 6 then asked.(loop := Asked(0, 1))
          else if k == 7 then asked.(loop := Answered(0, n))
          else if k == 8 then asked.(fired := map[0 := true])
          else asked.(fired := map[0 := true], readers := map[0 := Returned(true, n)])
  }

  lemma CallSteps(n: nat)
    ensures Step(Stage(n, 0), Begin(0), Stage(n, 1)) && Step(Stage(n, 1), LoadNotifier(0), Stage(n, 2))
    ensures Step(Stage(n, 2), SendToken(0), Stage(n, 3))
  {
  }

  lemma TakeSteps(n: nat)
    ensures Step(Stage(n, 3), TakeToken, Stage(n, 4)) && Step(Stage(n, 4), Swap, Stage(n, 5))
  {
  }

  lemma AskSteps(n: nat)
    ensures Step(Stage(n, 5), Ask, Stage(n, 6)) && Step(Stage(n, 6), Answer(1, n), Stage(n, 7))
  {
  }

  lemma WakeSteps(n: nat)
    ensures Step(Stage(n, 7), Compare, Stage(n, 8)) && Step(Stage(n, 8), Wake(0), Stage(n, 9))
  {
  }

  lemma StageEnds(n: nat)
    ensures Initial(Stage(n, 0)) && Stage(n, 0).commit == n
    ensures Stage(n, 9).readers == map[0 := Returned(true, n)] && Stage(n, 9).applied == n
  {
  }

  /** Such runs exist for every applied index. */
  lemma SuccessfulReadExists(n: nat) returns (ss: seq<State>, es: seq<Event>)
    ensures Run(ss, es) && |es| == 9 && es[0] == Begin(0) && es[8] == Wake(0) && (forall k :: 0 < k < 8 ==> es[k] != Begin(0))
    ensures 0 in ss[9].readers && ss[9].readers[0] == Returned(true, n)
    ensures ss[0].commit == n && ss[9].applied == n
  {
    hide Step, Stage, Initial;
    StageEnds(n);
    CallSteps(n);
    TakeSteps(n);
    AskSteps(n);
    WakeSteps(n);
    ss := [Stage(n, 0), Stage(n, 1), Stage(n, 2), Stage(n, 3), Stage(n, 4),
           Stage(n, 5), Stage(n, 6), Stage(n, 7), Stage(n, 8), Stage(n, 9)];
    es := [Begin(0), LoadNotifier(0), SendToken(0), TakeToken, Swap, Ask, Answer(1, n), Compare, Wake(0)];
  }
}
