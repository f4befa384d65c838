/**
 What a linearizable read returns, and why (raftmeta/linearizable_read.go): each round of
 the read loop serves one notifier and makes one request for it. Whoever waits on that
 notifier gets nil exactly when the request was answered.
 */
module ReadRounds {
  import opened LinearizableRead

  /** The event answers the request of the round that serves notifier `n`. */
  predicate Answers(s: State, e: Event, n: nat) {
    e.Answer? && s.loop == Asked(n, e.seqNo)
  }

  /** Some event among the first `i` did. */
  ghost predicate WasAnswered(ss: seq<State>, es: seq<Event>, n: nat, i: nat)
    requires i <= |es| < |ss|
  {
    exists j :: 0 <= j < i && Answers(ss[j], es[j], n)
  }

  /** The notifiers whose request was answered. */
  ghost function AnsweredBy(ss: seq<State>, es: seq<Event>, i: nat): (a: set<nat>)
    requires i <= |es| < |ss|
    ensures forall n :: n in a <==> WasAnswered(ss, es, n, i)
  {
    if i == 0 then {}
    else
      var a, s, e := AnsweredBy(ss, es, i - 1), ss[i - 1], es[i - 1];
      assert forall n :: WasAnswered(ss, es, n, i) <==> WasAnswered(ss, es, n, i - 1) || Answers(s, e, n) by {
        forall n ensures WasAnswered(ss, es, n, i) <==> WasAnswered(ss, es, n, i - 1) || Answers(s, e, n) {
          AnsweredStep(ss, es, n, i - 1);
        }
      }
      After(s, e, a)
  }

  lemma AnsweredStep(ss: seq<State>, es: seq<Event>, n: nat, i: nat)
    requires i < |es| < |ss|
    ensures WasAnswered(ss, es, n, i + 1) <==> WasAnswered(ss, es, n, i) || Answers(ss[i], es[i], n)
  {
    hide Answers;
    if j :| 0 <= j < i && Answers(ss[j], es[j], n) {
      assert 0 <= j < i + 1;
    }
    if j :| 0 <= j < i + 1 && Answers(ss[j], es[j], n) {
      assert j < i || j == i;
    }
  }

  ghost function After(s: State, e: Event, a: set<nat>): (b: set<nat>)
    ensures forall n :: n in b <==> n in a || Answers(s, e, n)
  {
    if e.Answer? && s.loop.Asked? && s.loop.seqNo == e.seqNo then a + {s.loop.nr} else a
  }

  /**
   A fired notifier carries success exactly if its request was answered; the loop is past
   the answer exactly if there was one; and no notifier that is yet to be served has one.
   */
  ghost predicate RoundsOk(s: State, a: set<nat>) {
    && (forall n :: n in s.fired ==> (s.fired[n] <==> n in a))
    && (s.loop.Swapped? || s.loop.Asked? ==> s.loop.nr !in a)
    && (s.loop.Answered? || s.loop.Behind? || s.loop.Registered? ==> s.loop.nr in a)
    && s.current !in a && forall n :: n in a ==> n < s.created
  }

  lemma RoundsByMove(s: State, e: Event, t: State, a: set<nat>)
    requires NotifiersOk(s) && RoundsOk(s, a) && MoveEvent(e) && Step(s, e, t)
    ensures RoundsOk(t, After(s, e, a))
  {
  }

  lemma RoundsByFire(s: State, e: Event, t: State, a: set<nat>)
    requires NotifiersOk(s) && RoundsOk(s, a) && FireEvent(e) && Step(s, e, t)
    ensures RoundsOk(t, After(s, e, a))
  {
  }

  lemma RoundsByOthers(s: State, e: Event, t: State, a: set<nat>)
    requires NotifiersOk(s) && RoundsOk(s, a) && (RaftEvent(e) || ReaderEvent(e)) && Step(s, e, t)
    ensures RoundsOk(t, After(s, e, a))
  {
  }

  lemma StepKeepsRounds(s: State, e: Event, t: State, a: set<nat>)
    requires NotifiersOk(s) && RoundsOk(s, a) && Step(s, e, t)
    ensures RoundsOk(t, After(s, e, a))
  {
    hide NotifiersOk, RoundsOk, Step, After;
    if MoveEvent(e) {
      RoundsByMove(s, e, t, a);
    } else if FireEvent(e) {
      RoundsByFire(s, e, t, a);
    } else {
      RoundsByOthers(s, e, t, a);
    }
  }

  lemma {:induction false} RunKeepsRounds(ss: seq<State>, es: seq<Event>, i: nat)
    requires Run(ss, es) && i < |ss|
    ensures RoundsOk(ss[i], AnsweredBy(ss, es, i))
  {
    hide Step, NotifiersOk, IndexOk, ReaderOk;
    if i > 0 {
      hide RoundsOk, After;
      RunKeepsRounds(ss, es, i - 1);
      RunKeepsInv(ss, es, i - 1);
      StepKeepsRounds(ss[i - 1], es[i - 1], ss[(i - 1) + 1], AnsweredBy(ss, es, i - 1));
    }
  }

  // ---------- what is fired, and with what ----------

  /** The event ends the round of notifier `n`; told from the state before it. */
  predicate Ends(s: State, e: Event, n: nat) {
    && Serving(s.loop) && s.loop.nr == n
    && match e
    case AskFails => s.loop.Swapped?
    case GiveUp => s.loop.Asked?
    case Compare => s.loop.Answered? && s.loop.index <= s.applied
    case Notify => s.loop.Registered? && s.loop.closed
    case _ => false
  }

  lemma FiringStep(s: State, e: Event, t: State, n: nat)
    requires NotifiersOk(s) && Step(s, e, t)
    ensures n in t.fired && n !in s.fired <==> Ends(s, e, n)
    ensures n in s.fired ==> n in t.fired
  {
  }

  lemma SuccessIsApplied(s: State, e: Event, n: nat)
    requires IndexOk(s) && Ends(s, e, n) && (e.Compare? || e.Notify?)
    ensures s.loop.index <= s.applied
  {
  }

  /**
   In every run: a notifier becomes fired by the events that end its round and by no others.
   It carries success if and only if the request of that round was answered, and then what
   was answered is applied; it carries an error if and only if the request failed or was given up.
   */
  lemma FiredExact(ss: seq<State>, es: seq<Event>, i: nat, n: nat)
    requires Run(ss, es) && i < |es|
    ensures n in ss[i + 1].fired && n !in ss[i].fired <==> Ends(ss[i], es[i], n)
    ensures n in ss[i + 1].fired && n !in ss[i].fired ==>
      && (ss[i + 1].fired[n] <==> WasAnswered(ss, es, n, i))
      && (ss[i + 1].fired[n] <==> es[i].Compare? || es[i].Notify?)
      && (!ss[i + 1].fired[n] <==> es[i].AskFails? || es[i].GiveUp?)
      && (ss[i + 1].fired[n] ==> ss[i].loop.index <= ss[i].applied)
  {
    hide ReaderOk, Step, NotifiersOk, IndexOk;
    RunKeepsInv(ss, es, i);
    assert Step(ss[i], es[i], ss[i + 1]);
    FiringStep(ss[i], es[i], ss[i + 1], n);
    RunKeepsRounds(ss, es, i);
    RunKeepsRounds(ss, es, i + 1);
    AnsweredStep(ss, es, n, i);
    if Ends(ss[i], es[i], n) && (es[i].Compare? || es[i].Notify?) {
      SuccessIsApplied(ss[i], es[i], n);
    }
  }

  lemma WakeStep(s: State, e: Event, t: State, r: nat)
    requires Step(s, e, t) && e == Wake(r)
    ensures r in s.readers && s.readers[r].Waiting? && s.readers[r].nc in s.fired && t.fired == s.fired
    ensures r in t.readers && t.readers[r].Returned? && t.readers[r].ok == s.fired[s.readers[r].nc]
  {
  }

  /** In every run a call that is woken returns nil if and only if the request for its notifier was answered. */
  lemma WakeExact(ss: seq<State>, es: seq<Event>, j: nat, r: nat)
    requires Run(ss, es) && j < |es| && es[j] == Wake(r)
    ensures r in ss[j].readers && ss[j].readers[r].Waiting? && r in ss[j + 1].readers && ss[j + 1].readers[r].Returned?
    ensures ss[j + 1].readers[r].ok <==> WasAnswered(ss, es, ss[j].readers[r].nc, j)
  {
    hide Step;
    assert Step(ss[j], es[j], ss[j + 1]);
    WakeStep(ss[j], es[j], ss[j + 1], r);
    RunKeepsRounds(ss, es, j);
  }

  // ---------- rounds are asked for ----------

  ghost function Count(es: seq<Event>, i: nat, p: Event -> bool): (n: nat)
    requires i <= |es|
  {
    if i == 0 then 0 else Count(es, i - 1, p) + if p(es[i - 1]) then 1 else 0
  }

  predicate IsTake(e: Event) {
    e.TakeToken?
  }

  predicate IsSend(e: Event) {
    e.SendToken?
  }

  lemma TokenStep(s: State, e: Event, t: State)
    requires Step(s, e, t)
    ensures t.token == (e.SendToken? || (s.token && !e.TakeToken?)) && (e.TakeToken? ==> s.token)
  {
  }

  /** The loop does not spin: it starts no more rounds than there were calls that asked for one. */
  lemma {:induction false} RoundsAreAskedFor(ss: seq<State>, es: seq<Event>, i: nat)
    requires Run(ss, es) && i < |ss|
    ensures Count(es, i, IsTake) + (if ss[i].token then 1 else 0) <= Count(es, i, IsSend)
  {
    hide Step;
    if i > 0 {
      RoundsAreAskedFor(ss, es, i - 1);
      assert Step(ss[i - 1], es[i - 1], ss[(i - 1) + 1]);
      TokenStep(ss[i - 1], es[i - 1], ss[i]);
    }
  }

  predicate IsRequest(e: Event) {
    e.Ask? || e.AskFails?
  }

  lemma RequestStep(s: State, e: Event, t: State)
    requires Step(s, e, t)
    ensures t.seqNo == s.seqNo + if IsRequest(e) then 1 else 0
    ensures e.Ask? ==> t.loop.Asked? && t.loop.seqNo == s.seqNo
  {
  }

  /** Requests are numbered one after the other, failed ones included, so no number is used twice. */
  lemma {:induction false} RequestsAreNumbered(ss: seq<State>, es: seq<Event>, i: nat)
    requires Run(ss, es) && i < |ss|
    ensures ss[i].seqNo == 1 + Count(es, i, IsRequest)
    ensures i < |es| && es[i].Ask? ==> ss[i + 1].loop.Asked? && ss[i + 1].loop.seqNo == 1 + Count(es, i, IsRequest)
  {
    hide Step;
    if i > 0 {
      RequestsAreNumbered(ss, es, i - 1);
      assert Step(ss[i - 1], es[i - 1], ss[(i - 1) + 1]);
      RequestStep(ss[i - 1], es[i - 1], ss[i]);
    }
    if i < |es| {
      assert Step(ss[i], es[i], ss[i + 1]);
      RequestStep(ss[i], es[i], ss[i + 1]);
    }
  }

  // ---------- a call that waits for an apply ----------

  /** A call with one entry committed that is not yet applied: it registers, waits, and is woken. */
  function Wait(n: nat, k: nat): (s: State) {
    var start := State(n + 1, n, n, false, 0, 1, map[], false, 1, map[], Top, map[]);
    if k == 0 then start
    else if k == 1 then start.(readers := map[0 := Calling(n + 1)])
    else if k == 2 then start.(readers := map[0 := Holding(0, n + 1)])
    else
      var waiting := start.(readers := map[0 := Waiting(0, n + 1)]);
      if k == 3 then waiting.(token := true)
      else if k == 4 then waiting.(loop := Taken)
      else
        var swapped := waiting.(current := 1, created := 2);
        if k == 5 then swapped.(loop := Swapped(0))
        else
          var asked := swapped.(seqNo := 2, asked := map[1 := n + 1]);
          if k == 6 then asked.(loop := Asked(0, 1))
          else if k == 7 then asked.(loop := Answered(0, n + 1))
          else if k == 8 then asked.(loop := Behind(0, n + 1))
          else if k == 9 then asked.(loop := Registered(0, n + 1, false))
          else if k == 10 then asked.(applied := n + 1, storing := true, loop := Registered(0, n + 1, false))
          else
            var done := asked.(applied := n + 1, triggered := n + 1);
            if k == 11 then done.(loop := Registered(0, n + 1, true))
            else if k == 12 then done.(fired := map[0 := true])
            else done.(fired := map[0 := true], readers := map[0 := Returned(true, n + 1)])
  }

  function WaitEvent(n: nat, k: nat): (e: Event) {
    if k == 0 then Begin(0)
    else if k == 1 then LoadNotifier(0)
    else if k == 2 then SendToken(0)
    else if k == 3 then TakeToken
    else if k == 4 then Swap
    else if k == 5 then Ask
    else if k == 6 then Answer(1, n + 1)
    else if k == 7 then Compare
    else if k == 8 then Register
    else if k == 9 then StoreApplied(n + 1)
    else if k == 10 then Trigger
    else if k == 11 then Notify
    else Wake(0)
  }

  lemma WaitCalls(n: nat, k: nat)
    requires k < 5
    ensures Step(Wait(n, k), WaitEvent(n, k), Wait(n, k + 1))
  {
  }

  lemma WaitAsks(n: nat, k: nat)
    requires 5 <= k < 9
    ensures Step(Wait(n, k), WaitEvent(n, k), Wait(n, k + 1))
  {
  }

  lemma WaitEnds(n: nat, k: nat)
    requires 9 <= k < 13
    ensures Step(Wait(n, k), WaitEvent(n, k), Wait(n, k + 1))
  {
  }

  lemma WaitFrom(n: nat)
    ensures Initial(Wait(n, 0)) && Wait(n, 0).commit == n + 1 && Wait(n, 0).applied == n
    ensures Wait(n, 9).loop == Registered(0, n + 1, false) && Wait(n, 9).applied == n
    ensures Wait(n, 13).readers == map[0 := Returned(true, n + 1)]
  {
  }

  /** For every index a run in which a call finds the apply behind, waits for it, and returns nil. */
  lemma WaitingReadExists(n: nat) returns (ss: seq<State>, es: seq<Event>)
    ensures Run(ss, es) && |es| == 13 && es[0] == Begin(0) && es[12] == Wake(0)
    ensures ss[0].commit == n + 1 && ss[9].applied == n && ss[9].loop == Registered(0, n + 1, false)
    ensures ss[13].readers == map[0 := Returned(true, n + 1)]
  {
    hide Step, Wait, WaitEvent, Initial;
    ss := seq(14, k requires 0 <= k < 14 => Wait(n, k));
    es := seq(13, k requires 0 <= k < 13 => WaitEvent(n, k));
    forall k | 0 <= k < 13 ensures Step(ss[k], es[k], ss[k + 1]) {
      if k < 5 {
        WaitCalls(n, k);
      } else if k < 9 {
        WaitAsks(n, k);
      } else {
        WaitEnds(n, k);
      }
    }
    WaitFrom(n);
    FirstAndLast(n);
  }

  lemma FirstAndLast(n: nat)
    ensures WaitEvent(n, 0) == Begin(0) && WaitEvent(n, 12) == Wake(0)
  {
  }
}
