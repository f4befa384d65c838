/**
 The hinted-handoff queue as a value: an ordered list of named segments. Reads are
 from the first segment, writes go to the last. `Pending` is the FIFO it stands for.
 */
module QueueModel {
  import opened Bytes
  import opened SegmentModel
  import opened SegmentNames

  datatype Q = Q(names: seq<string>, segs: seq<Seg>, maxSegmentSize: int64, maxSize: int64) {

    ghost predicate Consistent() {
      && |names| == |segs|
      && AllFit(segs, maxSegmentSize)
      && DistinctIds(names)
    }

    ghost predicate WellFormed() {
      Consistent() && segs != []
    }

    ghost predicate Synced() {
      segs != [] && segs[0].Synced()
    }

    /** The head segment has nothing left; `Current` looks no further than that. */
    ghost predicate Drained() {
      segs != [] && segs[0].Drained()
    }

    ghost function Pending(): seq<Bytes> {
      PendingOf(segs)
    }

    function Usage(): nat {
      UsageOf(segs)
    }

    function Last(): Seg
      requires segs != []
    {
      segs[|segs| - 1]
    }

    function WithLast(s: Seg): Q
      requires segs != []
    {
      this.(segs := segs[..|segs| - 1] + [s])
    }

    function AddSegment(): Q {
      this.(names := names + [Format(MaxId(names) + 1)], segs := segs + [Empty])
    }

    /** `Append`, from the size check to the retry on a new segment. */
    function Append(b: Bytes): (Q, Err)
      requires segs != []
    {
      if Usage() + |b| > maxSize then (this, QueueFull)
      else if Last().Size() + |b| <= maxSegmentSize then
        (WithLast(Last().Append(b)), NoError)
      else
        var q := AddSegment();
        if FOOTER + |b| <= maxSegmentSize then (q.WithLast(Empty.Append(b)), NoError) else (q, SegmentFull)
    }

    /** The error `Current` returns, and the record when there is none. */
    function Current(): (Bytes, Err)
      requires segs != []
    {
      if segs[0].head >= |segs[0].blocks| then ([], EOF)
      else
        var b := segs[0].blocks[segs[0].head];
        if |b| > maxSegmentSize then ([], OutOfRange) else (b, NoError)
    }

    function Refresh(): Q
      requires segs != []
    {
      this.(segs := [segs[0].Refresh()] + segs[1..])
    }

    function TrimHead(): Q
      requires |names| == |segs|
    {
      if |segs| > 1 then this.(names := names[1..], segs := segs[1..]) else this
    }

    /** What `Open` makes of the loaded segments: at least one, and no drained head it can drop. */
    function Opened(): Q
      requires |names| == |segs|
    {
      var q := if segs == [] then AddSegment() else this;
      if q.segs[0].head == |q.segs[0].blocks| then q.TrimHead() else q
    }

    /** `Advance` on a head whose cached size is right. */
    function Advance(): Q
      requires |names| == |segs| > 0
    {
      var h := segs[0].Advance();
      var q := this.(segs := [h] + segs[1..]);
      if h.head == |h.blocks| then q.TrimHead() else q
    }

    /**
     `PurgeOlderThan`, given the names of the files that are too old. When all are, an
     empty segment takes the place of the last one.
     */
    function Purge(aged: set<string>): Q
      requires |names| == |segs| > 0
    {
      var n := AgedCount(names, aged);
      if n < |segs| then this.(names := names[n..], segs := segs[n..])
      else this.(names := [Format(MaxId(names[|names| - 1..]) + 1)], segs := [Empty])
    }
  }

  /** How many of the oldest segments are too old. */
  function AgedCount(names: seq<string>, aged: set<string>): (n: nat)
    ensures n <= |names|
    ensures forall i :: 0 <= i < n ==> names[i] in aged
    ensures n < |names| ==> names[n] !in aged
  {
    if names == [] || names[0] !in aged then 0 else 1 + AgedCount(names[1..], aged)
  }

  function Rest<T>(s: seq<T>): (r: seq<T>) {
    if s == [] then [] else s[1..]
  }

  /** No block is longer than a segment may be, so reading one back is never refused. */
  ghost predicate Fits(s: Seg, maxSegmentSize: int) {
    && s.WellFormed()
    && s.Size() < TWO_63 + FOOTER
    && forall b :: b in s.blocks ==> |b| <= maxSegmentSize
  }

  ghost predicate AllFit(segs: seq<Seg>, maxSegmentSize: int) {
    forall i :: 0 <= i < |segs| ==> Fits(segs[i], maxSegmentSize)
  }

  ghost predicate DistinctIds(names: seq<string>) {
    && (forall i :: 0 <= i < |names| ==> Parse(names[i]).Some?)
    && (forall i, j :: 0 <= i < j < |names| ==> names[i] != names[j])
  }

  ghost function PendingOf(segs: seq<Seg>): (p: seq<Bytes>) {
    if segs == [] then [] else segs[0].Pending() + PendingOf(segs[1..])
  }

  function UsageOf(segs: seq<Seg>): (n: nat) {
    if segs == [] then 0 else UsageOf(segs[..|segs| - 1]) + segs[|segs| - 1].Size()
  }

  /** The largest number among the names, 0 when there is none. */
  function MaxId(names: seq<string>): (n: nat)
    ensures forall i :: 0 <= i < |names| && Parse(names[i]).Some? ==> Parse(names[i]).value <= n
    ensures n != 0 ==> exists i :: 0 <= i < |names| && Parse(names[i]) == Some(n)
  {
    if names == [] then 0
    else
      var n := MaxId(names[..|names| - 1]);
      match Parse(names[|names| - 1])
      case None => n
      case Some(id) => if id > n then id else n
  }

  lemma {:induction false} PendingConcat(a: seq<Seg>, b: seq<Seg>)
    ensures PendingOf(a + b) == PendingOf(a) + PendingOf(b)
  {
    if a == [] {
      assert a + b == b;
    } else {
      assert (a + b)[1..] == a[1..] + b;
      PendingConcat(a[1..], b);
    }
  }

  lemma {:induction false} UsageConcat(a: seq<Seg>, b: seq<Seg>)
    ensures UsageOf(a + b) == UsageOf(a) + UsageOf(b)
    decreases |b|
  {
    if b == [] {
      assert a + b == a;
    } else {
      assert (a + b)[..|a + b| - 1] == a + b[..|b| - 1];
      UsageConcat(a, b[..|b| - 1]);
    }
  }

  lemma UsageUpTo(segs: seq<Seg>, i: nat)
    requires i < |segs|
    ensures UsageOf(segs[..i + 1]) == UsageOf(segs[..i]) + segs[i].Size()
  {
    assert segs[..i + 1][..i] == segs[..i];
  }

  lemma PendingSingle(s: Seg)
    ensures PendingOf([s]) == s.Pending()
  {
    assert [s][1..] == [];
  }

  lemma AppendSize(s: Seg, b: Bytes)
    ensures s.Append(b).Size() == s.Size() + |b| + 8
  {
    BodySnoc(s.blocks, b);
  }

  lemma EmptySize()
    ensures Empty.Size() == FOOTER
  {
  }

  lemma FreshName(names: seq<string>)
    ensures Parse(Format(MaxId(names) + 1)) == Some(MaxId(names) + 1)
    ensures Format(MaxId(names) + 1) !in names
  {
    ParseFormat(MaxId(names) + 1);
  }

  lemma FitSnoc(segs: seq<Seg>, s: Seg, m: int)
    requires AllFit(segs, m) && Fits(s, m)
    ensures AllFit(segs + [s], m)
  {
  }

  lemma FitCons(s: Seg, segs: seq<Seg>, m: int)
    requires AllFit(segs, m) && Fits(s, m)
    ensures AllFit([s] + segs, m)
  {
  }

  lemma FitParts(segs: seq<Seg>, m: int)
    requires AllFit(segs, m) && segs != []
    ensures AllFit(segs[1..], m) && AllFit(segs[..|segs| - 1], m)
    ensures Fits(segs[0], m) && Fits(segs[|segs| - 1], m)
  {
  }

  lemma AddSegmentFits(q: Q)
    requires q.Consistent()
    ensures q.AddSegment().WellFormed()
  {
    FreshName(q.names);
    EmptySize();
    FitSnoc(q.segs, Empty, q.maxSegmentSize);
  }

  lemma AddSegmentKeeps(q: Q)
    ensures q.AddSegment().Pending() == q.Pending()
    ensures q.AddSegment().Usage() == q.Usage() + FOOTER
  {
    EmptySize();
    ReplaceLast(q.segs, [], [Empty]);
    assert q.segs + [] == q.segs;
  }

  lemma UsageNone()
    ensures UsageOf([]) == 0
  {
  }

  lemma UsageSingle(s: Seg)
    ensures UsageOf([s]) == s.Size()
  {
    assert [s][..0] == [];
  }

  /** What one more segment, if any, adds to both measures of a queue. */
  lemma OneMore(front: seq<Seg>, a: seq<Seg>)
    requires |a| <= 1
    ensures PendingOf(front + a) == PendingOf(front) + (if a == [] then [] else a[0].Pending())
    ensures UsageOf(front + a) == UsageOf(front) + (if a == [] then 0 else a[0].Size())
  {
    hide PendingOf, UsageOf, Body;
    if a == [] {
      assert front + a == front;
    } else {
      assert a == [a[0]];
      PendingConcat(front, a);
      UsageConcat(front, a);
      PendingSingle(a[0]);
      UsageSingle(a[0]);
    }
  }

  /** Both measures of a queue depend on a replaced stretch only through that stretch. */
  lemma ReplaceLast(front: seq<Seg>, a: seq<Seg>, b: seq<Seg>)
    requires |a| <= 1 && |b| <= 1
    ensures PendingOf(front + a) == PendingOf(front) + (if a == [] then [] else a[0].Pending())
    ensures PendingOf(front + b) == PendingOf(front) + (if b == [] then [] else b[0].Pending())
    ensures UsageOf(front + a) == UsageOf(front) + (if a == [] then 0 else a[0].Size())
    ensures UsageOf(front + b) == UsageOf(front) + (if b == [] then 0 else b[0].Size())
  {
    hide PendingOf, UsageOf, Body;
    OneMore(front, a);
    OneMore(front, b);
  }

  lemma WithLastAppended(q: Q, b: Bytes)
    requires q.WellFormed()
    requires q.segs[|q.segs| - 1].Size() + |b| <= q.maxSegmentSize
    ensures var r := q.WithLast(q.segs[|q.segs| - 1].Append(b));
            && r.WellFormed()
            && r.Pending() == q.Pending() + [b]
            && r.Usage() == q.Usage() + |b| + 8
  {
    hide Body, PendingOf, UsageOf, Parse, DistinctIds;
    var n := |q.segs| - 1;
    var s := q.segs[n];
    var t := s.Append(b);
    AppendSize(s, b);
    assert q.segs == q.segs[..n] + [s];
    FitParts(q.segs, q.maxSegmentSize);
    AppendedFits(s, b, q.maxSegmentSize);
    FitSnoc(q.segs[..n], t, q.maxSegmentSize);
    ReplaceLast(q.segs[..n], [s], [t]);
  }

  lemma AppendedFits(s: Seg, b: Bytes, maxSegmentSize: int64)
    requires Fits(s, maxSegmentSize) && s.Size() + |b| <= maxSegmentSize
    ensures Fits(s.Append(b), maxSegmentSize)
    ensures s.Append(b).Pending() == s.Pending() + [b]
  {
    AppendSize(s, b);
  }

  /** An accepted record goes to the end of the FIFO; a refused one leaves it alone. */
  lemma AppendIsEnqueue(q: Q, b: Bytes)
    requires q.WellFormed()
    ensures var (r, err) := q.Append(b);
            && r.WellFormed()
            && r.Pending() == (if err == NoError then q.Pending() + [b] else q.Pending())
            && r.Usage() <= q.Usage() + (if err == NoError then |b| + 16 else if err == SegmentFull then 8 else 0)
            && (err == QueueFull <==> q.Usage() + |b| > q.maxSize)
            && (err == NoError ==> q.Usage() + |b| <= q.maxSize && FOOTER + |b| <= q.maxSegmentSize)
            && err in {NoError, QueueFull, SegmentFull}
  {
    var n := |q.segs| - 1;
    if q.Usage() + |b| <= q.maxSize {
      if q.segs[n].Size() + |b| <= q.maxSegmentSize {
        WithLastAppended(q, b);
      } else {
        AddSegmentFits(q);
        AddSegmentKeeps(q);
        EmptySize();
        if FOOTER + |b| <= q.maxSegmentSize {
          WithLastAppended(q.AddSegment(), b);
        }
      }
    }
  }

  /** `Current` shows the front of the FIFO, unless the head segment is drained. */
  lemma CurrentIsFront(q: Q)
    requires q.WellFormed()
    ensures q.Current().1 == if q.Drained() then EOF else NoError
    ensures !q.Drained() ==> q.Pending() != [] && q.Current().0 == q.Pending()[0]
    ensures q.Refresh().WellFormed() && q.Refresh().Synced() && q.Refresh().Pending() == q.Pending()
    ensures q.Refresh().Drained() == q.Drained() && q.Refresh().Current() == q.Current()
  {
    assert q.Refresh().segs[1..] == q.segs[1..];
    if !q.Drained() {
      assert q.segs[0].blocks[q.segs[0].head] in q.segs[0].blocks;
    }
  }

  lemma AdvancedFits(s: Seg, m: int)
    requires Fits(s, m)
    ensures Fits(s.Advance(), m) && s.Advance().Size() == s.Size()
    ensures s.Advance().Pending() == Rest(s.Pending())
    ensures s.Pending() == [] <==> s.Drained()
  {
    AdvanceKeepsWellFormed(s);
  }

  lemma RestConcat<T>(a: seq<T>, b: seq<T>)
    requires a != []
    ensures Rest(a + b) == Rest(a) + b
  {
  }

  lemma AdvanceFirst(segs: seq<Seg>, m: int)
    requires segs != [] && AllFit(segs, m)
    ensures var r := [segs[0].Advance()] + segs[1..];
            && AllFit(r, m)
            && PendingOf(r) == (if segs[0].Drained() then PendingOf(segs) else Rest(PendingOf(segs)))
            && UsageOf(r) == UsageOf(segs)
  {
    hide PendingOf, UsageOf, AllFit, Fits, Body;
    var h, rest := segs[0], segs[1..];
    var t := h.Advance();
    FitParts(segs, m);
    AdvancedFits(h, m);
    FitCons(t, rest, m);
    ReplaceFirst(h, t, rest);
    assert segs == [h] + rest;
    if !h.Drained() {
      RestConcat(h.Pending(), PendingOf(rest));
    }
  }

  lemma ReplaceFirst(h: Seg, t: Seg, rest: seq<Seg>)
    ensures PendingOf([h] + rest) == h.Pending() + PendingOf(rest)
    ensures PendingOf([t] + rest) == t.Pending() + PendingOf(rest)
    ensures UsageOf([h] + rest) == h.Size() + UsageOf(rest)
    ensures UsageOf([t] + rest) == t.Size() + UsageOf(rest)
  {
    assert ([h] + rest)[1..] == rest && ([t] + rest)[1..] == rest;
    UsageConcat([h], rest);
    UsageConcat([t], rest);
    assert [h][..0] == [] && [t][..0] == [];
  }

  lemma TrimKeeps(q: Q)
    requires q.WellFormed() && q.Drained()
    ensures q.TrimHead().WellFormed()
    ensures q.TrimHead().Pending() == q.Pending()
    ensures q.TrimHead().Usage() <= q.Usage()
  {
    hide UsageOf, Body, Parse;
    assert q.segs == [q.segs[0]] + q.segs[1..];
    UsageConcat([q.segs[0]], q.segs[1..]);
  }

  /** `Advance` removes exactly the front of the FIFO, or only a drained segment. */
  lemma AdvanceIsDequeue(q: Q)
    requires q.WellFormed()
    ensures q.Advance().WellFormed()
    ensures q.Advance().Pending() == if q.Drained() then q.Pending() else Rest(q.Pending())
    ensures q.Advance().Usage() <= q.Usage()
  {
    AdvanceFirst(q.segs, q.maxSegmentSize);
    var r := q.(segs := [q.segs[0].Advance()] + q.segs[1..]);
    if r.Drained() {
      TrimKeeps(r);
    }
  }
}
