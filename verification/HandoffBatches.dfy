/**
 What the target node of a hinted-handoff queue receives, as shards and points
 (services/hh/node_processor.go): over whole runs, what writers gave and what the sender
 handed on.
 */
module HandoffBatches {
  import opened Bytes
  import opened HandoffRuns
  import opened QueueModel

  /** The batches that writers were told were accepted, in order. */
  ghost function Given(hs: seq<Handoff>, es: seq<Event>, i: nat): (r: seq<Batch>)
    requires i <= |es| < |hs|
  {
    if i == 0 then []
    else
      Given(hs, es, i - 1)
      + if es[i - 1].Write? && hs[i].accepted != hs[i - 1].accepted then [Batch(es[i - 1].shard, es[i - 1].payload)] else []
  }

  /** What the node was handed and took, in order. */
  ghost function Received(hs: seq<Handoff>, es: seq<Event>, i: nat): (r: seq<Option<Batch>>)
    requires i <= |es| < |hs|
  {
    if i == 0 then []
    else
      Received(hs, es, i - 1)
      + if es[i - 1] == Finish(Delivered) && hs[i - 1].inflight.Some? then [Unmarshal(hs[i - 1].inflight.value)] else []
  }

  ghost function Marshalled(bs: seq<Batch>): (r: seq<Bytes>) {
    seq(|bs|, i requires 0 <= i < |bs| => Marshal(bs[i].shard, bs[i].payload))
  }

  ghost function Unmarshalled(rs: seq<Bytes>): (r: seq<Option<Batch>>) {
    seq(|rs|, i requires 0 <= i < |rs| => Unmarshal(rs[i]))
  }

  lemma AcceptedStep(h: Handoff, e: Event, k: Handoff)
    requires Step(h, e, k)
    ensures k.accepted == h.accepted || (e.Write? && k.accepted == h.accepted + [Marshal(e.shard, e.payload)])
  {
    hide Q.Append, Q.Current, Q.Refresh, Q.Advance, Q.Purge, Marshal, PendingOf, UsageOf;
  }

  lemma {:induction false} AcceptedAre(hs: seq<Handoff>, es: seq<Event>, m: int64, n: int64, i: nat)
    requires Run(hs, es, m, n) && i < |hs|
    ensures hs[i].accepted == Marshalled(Given(hs, es, i))
  {
    hide Step, Marshal;
    if i == 0 {
      FreshIsEmpty(m, n);
    } else {
      AcceptedAre(hs, es, m, n, i - 1);
      assert StepAt(hs, es, i - 1);
      AcceptedStep(hs[i - 1], es[i - 1], hs[i]);
    }
  }

  lemma FreshIsEmpty(m: int64, n: int64)
    ensures Fresh(m, n).accepted == [] && Fresh(m, n).gone == []
  {
  }

  lemma {:induction false} UndeliveredAdd(gone: seq<Gone>, more: seq<Gone>)
    requires forall g :: g in more ==> !g.delivered
    ensures DeliveredRecords(gone + more) == DeliveredRecords(gone)
    decreases |more|
  {
    if more == [] {
      assert gone + more == gone;
    } else {
      var n := |more| - 1;
      assert (gone + more)[..|gone + more| - 1] == gone + more[..n];
      assert more[n] in more;
      UndeliveredAdd(gone, more[..n]);
    }
  }

  lemma DeliveredOneMore(gone: seq<Gone>, b: Bytes)
    ensures DeliveredRecords(gone + [Gone(b, true)]) == DeliveredRecords(gone) + [b]
  {
    assert (gone + [Gone(b, true)])[..|gone|] == gone;
  }

  /** Records leave the queue delivered only when the sender reports so. */
  lemma GoneStep(h: Handoff, e: Event, k: Handoff)
    requires Step(h, e, k)
    ensures e == Finish(Delivered) ==> h.inflight.Some? && k.gone == h.gone + [Gone(h.inflight.value, true)]
    ensures e != Finish(Delivered) ==> h.gone <= k.gone && forall g :: g in k.gone[|h.gone|..] ==> !g.delivered
  {
    hide Q.Append, Q.Current, Q.Refresh, Q.Advance, Q.Purge, Marshal, PendingOf, UsageOf, AgedCount;
  }

  lemma DeliveredStep(h: Handoff, e: Event, k: Handoff)
    requires Step(h, e, k)
    ensures DeliveredRecords(k.gone) == DeliveredRecords(h.gone)
            + if e == Finish(Delivered) && h.inflight.Some? then [h.inflight.value] else []
  {
    hide Step, DeliveredRecords;
    GoneStep(h, e, k);
    if e == Finish(Delivered) {
      DeliveredOneMore(h.gone, h.inflight.value);
    } else {
      assert k.gone == h.gone + k.gone[|h.gone|..];
      UndeliveredAdd(h.gone, k.gone[|h.gone|..]);
    }
  }

  lemma {:induction false} ReceivedAre(hs: seq<Handoff>, es: seq<Event>, m: int64, n: int64, i: nat)
    requires Run(hs, es, m, n) && i < |hs|
    ensures Received(hs, es, i) == Unmarshalled(DeliveredRecords(hs[i].gone))
  {
    hide Step, Unmarshal, DeliveredRecords;
    if i == 0 {
      FreshIsEmpty(m, n);
      NoneDelivered();
    } else {
      ReceivedAre(hs, es, m, n, i - 1);
      assert StepAt(hs, es, i - 1);
      DeliveredStep(hs[i - 1], es[i - 1], hs[i]);
    }
  }

  lemma NoneDelivered()
    ensures DeliveredRecords([]) == []
  {
  }

  lemma ReadBack(bs: seq<Batch>, i: nat)
    requires i < |bs|
    ensures Unmarshal(Marshalled(bs)[i]) == Some(bs[i])
  {
    UnmarshalMarshal(bs[i].shard, bs[i].payload);
  }

  /**
   In runs that keep the order when reopening and in which nothing is skipped, what the node
   receives is, shard by shard and point by point, a prefix of what writers gave.
   */
  lemma ReceivedIsPrefixOfGiven(hs: seq<Handoff>, es: seq<Event>, m: int64, n: int64, i: nat)
    requires 0 <= m && 0 <= n && Run(hs, es, m, n) && KeepsOrder(hs, es) && NothingSkipped(es) && i < |hs|
    ensures |Received(hs, es, i)| <= |Given(hs, es, i)|
    ensures forall j :: 0 <= j < |Received(hs, es, i)| ==> Received(hs, es, i)[j] == Some(Given(hs, es, i)[j])
  {
    hide Run, Given, Received, Marshal, Unmarshal, DeliveredRecords, PendingOf, KeepsOrder, NothingSkipped;
    DeliveredIsPrefixOfAccepted(hs, es, m, n, i);
    RunShape(hs, es, m, n);
    AcceptedAre(hs, es, m, n, i);
    ReceivedAre(hs, es, m, n, i);
    forall j | 0 <= j < |Received(hs, es, i)| ensures Received(hs, es, i)[j] == Some(Given(hs, es, i)[j]) {
      ReadBack(Given(hs, es, i), j);
      assert hs[i].accepted[j] == DeliveredRecords(hs[i].gone)[j];
    }
  }

  lemma {:induction false} DeliveredAreGone(gone: seq<Gone>)
    ensures multiset(DeliveredRecords(gone)) <= multiset(Records(gone))
  {
    if gone != [] {
      var n := |gone| - 1;
      DeliveredAreGone(gone[..n]);
      assert Records(gone) == Records(gone[..n]) + [gone[n].record];
    }
  }

  /** In every run nothing is delivered more often than it was accepted, and every batch received was given. */
  lemma ReceivedWasGiven(hs: seq<Handoff>, es: seq<Event>, m: int64, n: int64, i: nat)
    requires 0 <= m && 0 <= n && Run(hs, es, m, n) && i < |hs|
    ensures multiset(DeliveredRecords(hs[i].gone)) <= multiset(Marshalled(Given(hs, es, i)))
    ensures forall j :: 0 <= j < |Received(hs, es, i)| ==>
              Received(hs, es, i)[j].Some? && Received(hs, es, i)[j].value in Given(hs, es, i)
  {
    hide Run, Given, Received, Marshal, Unmarshal, DeliveredRecords, PendingOf, Proper;
    RunConserves(hs, es, m, n, i);
    RunShape(hs, es, m, n);
    AcceptedAre(hs, es, m, n, i);
    ReceivedAre(hs, es, m, n, i);
    DeliveredAreGone(hs[i].gone);
    var rs, bs := DeliveredRecords(hs[i].gone), Given(hs, es, i);
    forall j | 0 <= j < |rs| ensures Unmarshal(rs[j]).Some? && Unmarshal(rs[j]).value in bs {
      assert rs[j] in multiset(rs);
      assert rs[j] in multiset(Marshalled(bs));
      var k :| 0 <= k < |bs| && Marshalled(bs)[k] == rs[j];
      ReadBack(bs, k);
    }
  }
}
