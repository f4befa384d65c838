/**
 `NodeProcessor.SendWrite` and `WriteShard` of services/hh/node_processor.go on the
 queue they drive. The meta lookup, the point parser and the remote write are
 parameters.
 */
module NodeProcessor {
  import opened Bytes
  import opened HandoffQueue
  import opened HandoffRuns
  import opened QueueModel
  import opened SegmentModel

  datatype SendErr = Sent | QueueErr(err: Err) | LookupFailed | Inactive | CannotDecode | WriteFailed

  const NEWLINE: byte := 10

  /** Points as text, one to a line. */
  function Lines(points: seq<Bytes>): (text: Bytes) {
    if points == [] then [] else Lines(points[..|points| - 1]) + points[|points| - 1] + [NEWLINE]
  }

  /** Where the first line ends. */
  function LineEnd(text: Bytes): (i: nat)
    ensures i <= |text| && NEWLINE !in text[..i]
    ensures i < |text| ==> text[i] == NEWLINE
  {
    if text == [] || text[0] == NEWLINE then 0 else 1 + LineEnd(text[1..])
  }

  /** A text, line by line. */
  function Split(text: Bytes): (lines: seq<Bytes>)
    decreases |text|
  {
    if text == [] then []
    else
      var i := LineEnd(text);
      if i == |text| then [text] else [text[..i]] + Split(text[i + 1..])
  }

  lemma {:induction false} LinesCons(points: seq<Bytes>)
    requires points != []
    ensures Lines(points) == points[0] + [NEWLINE] + Lines(points[1..])
  {
    var n := |points| - 1;
    if n > 0 {
      LinesCons(points[..n]);
      assert points[..n][1..] == points[1..][..n - 1];
    } else {
      assert points[..n] == [] && points[1..] == [];
    }
  }

  /** Points without a line break are told apart again, in order. */
  lemma {:induction false} SplitLines(points: seq<Bytes>)
    requires forall p :: p in points ==> NEWLINE !in p
    ensures Split(Lines(points)) == points
  {
    if points != [] {
      var text := Lines(points);
      LinesCons(points);
      var i := LineEnd(text);
      assert points[0] in points;
      assert text[|points[0]|] == NEWLINE && text[..|points[0]|] == points[0];
      assert i == |points[0]|;
      assert text[i + 1..] == Lines(points[1..]);
      SplitLines(points[1..]);
    }
  }

  /** The text decodes: the record is long enough and the points can be parsed. */
  predicate Decodes(b: Bytes, points: Bytes -> bool) {
    Unmarshal(b).Some? && points(Unmarshal(b).value.payload)
  }

  class NodeProcessor {
    const queue: Queue

    constructor (queue: Queue)
      ensures this.queue == queue
    {
      this.queue := queue;
    }

    /** `marshalWrite`. */
    static method MarshalWrite(shard: uint64, points: seq<Bytes>) returns (b: Bytes)
      ensures Unmarshal(b) == Some(Batch(shard, Lines(points))) && b == Marshal(shard, Lines(points))
    {
      b := PutUint64(shard);
      for i := 0 to |points|
        invariant b == PutUint64(shard) + Lines(points[..i])
      {
        assert points[..i + 1][..i] == points[..i];
        b := b + points[i];
        b := b + [NEWLINE];
      }
      assert points[..|points|] == points;
      UnmarshalMarshal(shard, Lines(points));
    }

    method WriteShard(shard: uint64, points: seq<Bytes>) returns (err: Err)
      requires queue.Closed() || queue.Valid() || queue.Detached()
      modifies queue, queue.dir`files, queue.tail
      ensures old(queue.Closed()) ==> err == NotOpen && queue.Closed()
      ensures old(queue.Valid()) ==>
                queue.Valid() && (queue.model, err) == old(queue.model).Append(Marshal(shard, Lines(points)))
      ensures old(queue.Detached()) ==>
                && queue.Detached() && queue.model == old(queue.model) && queue.dir.files == old(queue.dir.files)
                && err == if queue.model.Usage() + 8 + |Lines(points)| > queue.maxSize then QueueFull else NoError
    {
      var b := MarshalWrite(shard, points);
      err := queue.Append(b);
    }

    /**
     Delivers the record at the head, then advances past it. Records the node refuses
     stay; records that cannot be decoded are skipped. Whatever was cached before,
     reading the head first makes the advance exact.
     */
    method SendWrite(active: Option<bool>, points: Bytes -> bool, accepts: Batch -> bool)
      returns (n: nat, err: SendErr)
      requires queue.Closed() || queue.Serving()
      modifies queue, queue.dir`files, queue.head
      ensures active != Some(true) ==> n == 0 && err == if active.None? then LookupFailed else Inactive
      ensures active != Some(true) ==> queue.model == old(queue.model) && queue.dir.files == old(queue.dir.files)
      ensures old(queue.Closed()) ==> queue.Closed() && (active == Some(true) ==> n == 0 && err == QueueErr(NotOpen))
      ensures old(queue.Serving()) ==> queue.Serving()
      ensures old(queue.Serving()) && active == Some(true) ==>
                var q := old(queue.model);
                var b := q.Current().0;
                if q.Current().1 != NoError then
                  queue.model == q.Refresh() && n == 0 && err == QueueErr(q.Current().1)
                else if !Decodes(b, points) then
                  queue.model == q.Refresh().Advance() && n == 0 && err == CannotDecode
                else if !accepts(Unmarshal(b).value) then
                  queue.model == q.Refresh() && n == 0 && err == WriteFailed
                else
                  queue.model == q.Refresh().Advance() && n == |b| && err == Sent
    {
      match active {
        case None => return 0, LookupFailed;
        case Some(yes) =>
          if !yes {
            return 0, Inactive;
          }
      }
      if queue.head == null {
        return 0, QueueErr(NotOpen);
      }
      n, err := SendHead(points, accepts);
    }

    /** The rest of `SendWrite`, for an active node and an open queue. */
    method SendHead(points: Bytes -> bool, accepts: Batch -> bool) returns (n: nat, err: SendErr)
      requires queue.Serving()
      modifies queue, queue.dir`files, queue.head
      ensures queue.Serving()
      ensures var q := old(queue.model);
              var b := q.Current().0;
              if q.Current().1 != NoError then
                queue.model == q.Refresh() && n == 0 && err == QueueErr(q.Current().1)
              else if !Decodes(b, points) then
                queue.model == q.Refresh().Advance() && n == 0 && err == CannotDecode
              else if !accepts(Unmarshal(b).value) then
                queue.model == q.Refresh() && n == 0 && err == WriteFailed
              else
                queue.model == q.Refresh().Advance() && n == |b| && err == Sent
    {
      hide *;
      queue.OpenFacts();
      ModelShape(queue);
      RefreshIsSynced(queue.model);
      NotClosed(queue);
      var b, e := queue.Current();
      if e != NoError {
        return 0, QueueErr(e);
      }
      NotClosed(queue);
      DecodesIs(b, points);
      if !Decodes(b, points) {
        var _ := queue.Advance();
        return 0, CannotDecode;
      }
      if !accepts(Unmarshal(b).value) {
        return 0, WriteFailed;
      }
      var _ := queue.Advance();
      return |b|, Sent;
    }
  }

  lemma DecodesIs(b: Bytes, points: Bytes -> bool)
    ensures Decodes(b, points) ==> Unmarshal(b).Some?
  {
  }

  lemma NotClosed(queue: Queue)
    requires queue.Serving()
    ensures !queue.Closed()
  {
  }

  lemma ModelShape(queue: Queue)
    requires queue.Serving()
    ensures queue.model.WellFormed() && |queue.model.names| == |queue.model.segs|
    ensures |queue.model.Refresh().segs| == |queue.model.segs|
  {
  }

  lemma RefreshIsSynced(q: Q)
    requires q.WellFormed()
    ensures q.Refresh().Synced() && q.Refresh().segs != []
  {
    CurrentIsFront(q);
  }
}
