/**
 Whole runs of a hinted-handoff processor: writers append, the sender reads the
 head record, tries to deliver it and advances, old segments are purged between sends, a
 client may also advance without reading, and the processor may be closed and reopened.
 Appends may fall between the sender's read and its advance.
 */
module HandoffRuns {
  import opened Bytes
  import opened Directory
  import opened HandoffQueue
  import opened QueueModel
  import opened SegmentModel
  import opened SegmentNames

  datatype Outcome = Delivered | Unreadable | Failed

  datatype Event =
    | Write(shard: uint64, payload: Bytes)
    | Begin
    | Finish(outcome: Outcome)
    | Advance
    | Purge(aged: set<string>)
    | Reopen

  /** A record that left the queue: delivered to its node, or not. */
  datatype Gone = Gone(record: Bytes, delivered: bool)

  /**
   `accepted` and `gone` are the history of what writers and the sender saw. `detached`
   says that the tail is a closed segment which is no longer in the queue.
   */
  datatype Handoff = Handoff(q: Q, inflight: Option<Bytes>, accepted: seq<Bytes>, gone: seq<Gone>, detached: bool)

  /** `marshalWrite` */
  function Marshal(shard: uint64, payload: Bytes): (b: Bytes)
    ensures |b| >= 8
  {
    PutUint64(shard) + payload
  }

  /** What a record is about: a shard, and points as text. */
  datatype Batch = Batch(shard: uint64, payload: Bytes)

  /** `unmarshalWrite` up to parsing the text: an 8-byte shard id, then the points. */
  function Unmarshal(b: Bytes): (r: Option<Batch>) {
    if |b| < 8 then None else Some(Batch(Uint64(b[..8]), b[8..]))
  }

  /** The sender reads back the shard and the points that the writer put in, for every 64-bit id. */
  lemma UnmarshalMarshal(shard: uint64, payload: Bytes)
    ensures Unmarshal(Marshal(shard, payload)) == Some(Batch(shard, payload))
  {
    Uint64RoundTrip(shard);
    assert Marshal(shard, payload)[..8] == PutUint64(shard) && Marshal(shard, payload)[8..] == payload;
  }

  /** Every record long enough is the one its shard and points are marshalled to. */
  lemma MarshalUnmarshal(b: Bytes)
    requires |b| >= 8
    ensures Unmarshal(b).Some? && Marshal(Unmarshal(b).value.shard, Unmarshal(b).value.payload) == b
  {
    Uint64Inverse(b[..8]);
  }

  /** The queue `Open` makes in an empty directory. */
  function Fresh(maxSegmentSize: int64, maxSize: int64): (h: Handoff) {
    Handoff(Q([], [], maxSegmentSize, maxSize).Opened(), None, [], [], false)
  }

  /** Records that went undelivered. */
  function Dropped(rs: seq<Bytes>): (g: seq<Gone>) {
    seq(|rs|, i requires 0 <= i < |rs| => Gone(rs[i], false))
  }

  /** Every segment is too old. */
  predicate AllAged(q: Q, aged: set<string>) {
    AgedCount(q.names, aged) == |q.names|
  }

  ghost predicate Step(h: Handoff, e: Event, k: Handoff) {
    && |h.q.names| == |h.q.segs| > 0
    && match e
    case Write(shard, payload) =>
      var b := Marshal(shard, payload);
      var (q, err) := h.q.Append(b);
      k == if !h.detached then h.(q := q, accepted := if err == NoError then h.accepted + [b] else h.accepted)
           else if h.q.Usage() + |b| > h.q.maxSize then h
           // reported as accepted
           else h.(accepted := h.accepted + [b], gone := h.gone + [Gone(b, false)])
    case Begin =>
      var (b, err) := h.q.Current();
      && h.inflight.None?
      && k == h.(q := h.q.Refresh(), inflight := if err == NoError then Some(b) else None)
    case Finish(outcome) =>
      && h.inflight.Some?
      && k == if outcome == Failed then h.(inflight := None)
              else h.(q := h.q.Advance(), inflight := None,
                      gone := h.gone + [Gone(h.inflight.value, outcome == Delivered)])
    case Advance =>
      && h.inflight.None?
      && k == h.(q := h.q.Advance(),
                 gone := if h.q.Current().1 == EOF then h.gone else h.gone + [Gone(h.q.Current().0, false)])
    case Purge(aged) =>
      // by the goroutine that sends
      && h.inflight.None?
      && k == h.(q := h.q.Purge(aged), detached := h.detached || AllAged(h.q, aged),
                 gone := h.gone + Dropped(PendingOf(h.q.segs[..AgedCount(h.q.names, aged)])))
    case Reopen =>
      h.inflight.None? && Reopens(h.q, k.q) && k == h.(q := k.q, detached := false)
  }

  function Records(gone: seq<Gone>): (r: seq<Bytes>) {
    seq(|gone|, i requires 0 <= i < |gone| => gone[i].record)
  }

  /** Segment ids are consecutive, oldest first. */
  ghost predicate Consecutive(names: seq<string>, first: nat) {
    first > 0 && forall i :: 0 <= i < |names| ==> names[i] == Format(first + i)
  }

  /** No id in use is longer than another: the condition under which reopening keeps the order. */
  predicate SameDigits(names: seq<string>) {
    names != [] ==> |names[0]| == |names[|names| - 1]|
  }

  /** Records are never empty, and a file is at most one record header over the limit. */
  ghost predicate SegOk(s: Seg, maxSegmentSize: int) {
    && (forall b :: b in s.blocks ==> b != [])
    && s.Size() <= maxSegmentSize + 8
  }

  ghost predicate AllOk(segs: seq<Seg>, maxSegmentSize: int) {
    forall i :: 0 <= i < |segs| ==> SegOk(segs[i], maxSegmentSize)
  }

  ghost predicate Ids(q: Q) {
    exists first: nat :: Consecutive(q.names, first)
  }

  /** What left the queue, and behind it what is still in it. */
  ghost function Ledger(h: Handoff): (r: seq<Bytes>) {
    Records(h.gone) + h.q.Pending()
  }

  /** Each accepted record is gone or pending, exactly once and in order. */
  ghost predicate Accounted(h: Handoff) {
    h.accepted == Ledger(h)
  }

  /** The same up to the order. */
  ghost predicate Conserved(h: Handoff) {
    multiset(h.accepted) == multiset(Ledger(h))
  }

  /** What every event keeps, whatever the order of the segments. */
  ghost predicate Proper(h: Handoff) {
    && h.q.WellFormed() && AllOk(h.q.segs, h.q.maxSegmentSize)
    && 0 <= h.q.maxSegmentSize && 0 <= h.q.maxSize
    && h.q.Usage() <= h.q.maxSize + 16
    && (h.inflight.Some? ==> h.q.Current() == (h.inflight.value, NoError))
    && (h.detached ==> h.q.segs == [Empty])
  }

  ghost predicate Inv(h: Handoff) {
    Proper(h) && Ids(h.q) && Accounted(h)
  }

  /** The records accepted by a step come at the end of the ledger, which is otherwise the same. */
  ghost predicate Moves(h: Handoff, k: Handoff) {
    h.accepted <= k.accepted && Ledger(k) == Ledger(h) + k.accepted[|h.accepted|..]
  }

  // ---------- reopening ----------

  lemma ConsecutiveSorted(names: seq<string>, first: nat)
    requires Consecutive(names, first) && names != []
    ensures Sorted(names) <==> SameDigits(names)
  {
    var last := first + |names| - 1;
    NameOrderExact(first, last);
    LongerOfLarger(first, last);
    if Sorted(names) {
      forall m, n | first <= m <= last && first <= n <= last
        ensures Less(Format(m), Format(n)) <==> m < n
      {
        assert names[m - first] == Format(m) && names[n - first] == Format(n);
        if m >= n {
          LessIrreflexive(Format(m));
          if m > n && Less(Format(m), Format(n)) {
            LessTransitive(Format(m), Format(n), Format(m));
          }
        }
      }
    }
  }

  /** Every record of a queue without empty records has its size cached right. */
  lemma OkIsSynced(s: Seg, m: int)
    requires s.WellFormed() && SegOk(s, m)
    ensures s.Synced() && s.Refresh() == s
  {
    if s.head < |s.blocks| {
      assert s.blocks[s.head] in s.blocks;
    }
  }

  lemma LoadedNames(files: map<string, Bytes>, q: Q, l: Q)
    requires OnDisk(files, q) && Loads(files, l) && Sorted(q.names)
    ensures l.names == q.names
  {
    hide Parse, Less, FileOf;
    ListingUnique(l.names, q.names, set k | k in q.names);
  }

  lemma LoadedSegment(files: map<string, Bytes>, q: Q, l: Q, i: nat)
    requires q.Consistent() && OnDisk(files, q) && Loads(files, l) && l.names == q.names
    requires i < |q.segs|
    ensures l.segs[i] == q.segs[i].Refresh()
  {
    hide Body, Parse, Sorted;
    MeaningOfFile(q.segs[i]);
  }

  /**
   Reloading the files lists the segments in their old order exactly when the names are
   in string order. While ids are consecutive, that is exactly when the first and the last
   have the same number of digits; after a reopening out of order they need not be.
   */
  lemma ReloadOrderExact(files: map<string, Bytes>, q: Q, l: Q)
    requires q.Consistent() && OnDisk(files, q) && Loads(files, l)
    ensures l.names == q.names <==> Sorted(q.names)
    ensures Sorted(q.names) ==> forall i :: 0 <= i < |q.segs| ==> l.segs[i] == q.segs[i].Refresh()
    ensures q.names != [] && Ids(q) ==> (Sorted(q.names) <==> SameDigits(q.names))
  {
    hide Parse, Less, Format, Sorted, OnDisk, SameDigits, AllFit;
    if q.names != [] && Ids(q) {
      var first: nat :| Consecutive(q.names, first);
      ConsecutiveSorted(q.names, first);
    }
    if Sorted(q.names) {
      LoadedNames(files, q, l);
      forall i | 0 <= i < |q.segs| ensures l.segs[i] == q.segs[i].Refresh() {
        LoadedSegment(files, q, l, i);
      }
    }
  }

  /** With the names in order, closing and opening again loses, repeats and reorders nothing. */
  lemma ReopenKeepsQueue(q: Q, r: Q)
    requires q.WellFormed() && AllOk(q.segs, q.maxSegmentSize)
    requires Reopens(q, r) && Sorted(q.names)
    ensures r == q.Opened()
    ensures r.WellFormed() && r.Pending() == q.Pending()
    ensures q.Drained() && |q.segs| > 1 ==> r.segs == q.segs[1..]
  {
    hide Parse, Format, OnDisk, Loads, Body, Sorted;
    var files, l :| OnDisk(files, q) && Loads(files, l) && |l.names| == |l.segs|
      && l.maxSegmentSize == q.maxSegmentSize && l.maxSize == q.maxSize && r == l.Opened();
    LoadedNames(files, q, l);
    forall i | 0 <= i < |q.segs| ensures l.segs[i] == q.segs[i] {
      LoadedSegment(files, q, l, i);
      OkIsSynced(q.segs[i], q.maxSegmentSize);
    }
    SameNamesAndSegs(q, l);
    if q.Drained() {
      TrimKeeps(q);
    }
  }

  lemma SameNamesAndSegs(q: Q, l: Q)
    requires |q.names| == |q.segs| && |l.segs| == |l.names| && l.names == q.names
    requires l.maxSegmentSize == q.maxSegmentSize && l.maxSize == q.maxSize
    requires forall i :: 0 <= i < |q.segs| ==> l.segs[i] == q.segs[i]
    ensures l == q
  {
  }

  ghost predicate SameMembers(a: seq<string>, b: seq<string>) {
    forall k :: k in a <==> k in b
  }

  ghost predicate AllDifferent(a: seq<string>) {
    forall i, j :: 0 <= i < j < |a| ==> a[i] != a[j]
  }

  lemma WithoutName(a: seq<string>, b: seq<string>, j: nat)
    requires AllDifferent(a) && AllDifferent(b) && SameMembers(a, b) && a != [] && j < |b| && b[j] == a[0]
    ensures AllDifferent(a[1..]) && AllDifferent(b[..j] + b[j + 1..]) && SameMembers(a[1..], b[..j] + b[j + 1..])
  {
    var c := b[..j] + b[j + 1..];
    forall i | 0 <= i < |c| ensures c[i] == b[if i < j then i else i + 1] {
    }
    forall k | k in a[1..] ensures k in c {
      assert k in a;
      var i :| 0 <= i < |b| && b[i] == k;
      assert c[if i < j then i else i - 1] == k;
    }
    forall k | k in c ensures k in a[1..] {
      assert k in b;
      assert k in a && k != a[0];
    }
  }

  lemma NoMembers(b: seq<string>)
    requires SameMembers([], b)
    ensures b == []
  {
    if b != [] {
      HasMember(b);
    }
  }

  lemma HasMember(b: seq<string>)
    requires b != []
    ensures exists k :: k in b
  {
    assert b[0] in b;
  }

  lemma MiddleOut<T>(x: seq<T>, y: seq<T>, z: seq<T>)
    ensures multiset(x + (y + z)) == multiset(y) + multiset(x + z)
  {
  }

  lemma SplitAt<T>(s: seq<T>, j: nat)
    requires j < |s|
    ensures s == s[..j] + ([s[j]] + s[j + 1..])
  {
  }

  lemma TakenOut(segs: seq<Seg>, j: nat)
    requires j < |segs|
    ensures multiset(PendingOf(segs)) == multiset(segs[j].Pending()) + multiset(PendingOf(segs[..j] + segs[j + 1..]))
    ensures UsageOf(segs) == segs[j].Size() + UsageOf(segs[..j] + segs[j + 1..])
  {
    hide PendingOf, UsageOf, Body;
    var front, back := segs[..j], segs[j + 1..];
    SplitAt(segs, j);
    PendingConcat(front, [segs[j]] + back);
    UsageConcat(front, [segs[j]] + back);
    ReplaceFirst(segs[j], segs[j], back);
    PendingConcat(front, back);
    UsageConcat(front, back);
    MiddleOut(PendingOf(front), segs[j].Pending(), PendingOf(back));
  }

  /** The same named segments in another order hold the same records and bytes. */
  lemma {:induction false} SameSegments(a: seq<string>, s: seq<Seg>, b: seq<string>, t: seq<Seg>)
    requires |a| == |s| && |b| == |t| && AllDifferent(a) && AllDifferent(b) && SameMembers(a, b)
    requires forall i, j :: 0 <= i < |a| && 0 <= j < |b| && a[i] == b[j] ==> s[i] == t[j]
    ensures multiset(PendingOf(s)) == multiset(PendingOf(t)) && UsageOf(s) == UsageOf(t)
    decreases |a|
  {
    hide PendingOf, UsageOf, AllDifferent, Body;
    if a == [] {
      NoMembers(b);
      assert s == [] && t == [];
    } else {
      assert a[0] in a;
      var j :| 0 <= j < |b| && b[j] == a[0];
      WithoutName(a, b, j);
      SameSegments(a[1..], s[1..], b[..j] + b[j + 1..], t[..j] + t[j + 1..]);
      TakenOut(s, 0);
      TakenOut(t, j);
      assert s[..0] + s[1..] == s[1..];
    }
  }

  lemma LoadedAt(files: map<string, Bytes>, q: Q, l: Q, i: nat, j: nat)
    requires q.Consistent() && AllOk(q.segs, q.maxSegmentSize) && OnDisk(files, q) && Loads(files, l)
    requires i < |q.names| && j < |l.names| && q.names[i] == l.names[j]
    ensures l.segs[j] == q.segs[i]
  {
    hide Body, Parse, Sorted;
    OkIsSynced(q.segs[i], q.maxSegmentSize);
    LoadedFrom(files, q, l, i, j);
  }

  lemma LoadedMembers(files: map<string, Bytes>, q: Q, l: Q)
    requires q.Consistent() && OnDisk(files, q) && Loads(files, l)
    ensures SameMembers(q.names, l.names) && AllDifferent(q.names) && AllDifferent(l.names) && DistinctIds(l.names)
  {
    hide Parse, FileOf, Less, IsSegmentFile, Meaning;
    SortedDiffer(l.names);
    forall i | 0 <= i < |l.names| ensures Parse(l.names[i]).Some? {
      assert l.names[i] in l.names;
    }
  }

  lemma SortedDiffer(names: seq<string>)
    requires Sorted(names)
    ensures AllDifferent(names)
  {
    hide Less;
    forall i, j | 0 <= i < j < |names| ensures names[i] != names[j] {
      LessIrreflexive(names[i]);
    }
  }

  lemma LoadedIsPermuted(files: map<string, Bytes>, q: Q, l: Q)
    requires q.WellFormed() && AllOk(q.segs, q.maxSegmentSize) && OnDisk(files, q) && Loads(files, l)
    requires |l.names| == |l.segs| && l.maxSegmentSize == q.maxSegmentSize
    ensures l.WellFormed() && AllOk(l.segs, q.maxSegmentSize)
    ensures multiset(l.Pending()) == multiset(q.Pending()) && l.Usage() == q.Usage()
  {
    hide Body, OnDisk, Loads, PendingOf, UsageOf, DistinctIds, Fits, SegOk, AllDifferent;
    LoadedMembers(files, q, l);
    forall i, j | 0 <= i < |q.names| && 0 <= j < |l.names| && q.names[i] == l.names[j] ensures q.segs[i] == l.segs[j] {
      LoadedAt(files, q, l, i, j);
    }
    SameSegments(q.names, q.segs, l.names, l.segs);
    assert q.names[0] in q.names;
    forall j | 0 <= j < |l.segs| ensures Fits(l.segs[j], q.maxSegmentSize) && SegOk(l.segs[j], q.maxSegmentSize) {
      assert l.names[j] in l.names;
      var i :| 0 <= i < |q.names| && q.names[i] == l.names[j];
      assert l.segs[j] == q.segs[i];
    }
  }

  /** Whatever the names, reopening keeps the records up to their order, and the bytes. */
  lemma ReopenPermutes(q: Q, r: Q)
    requires q.WellFormed() && AllOk(q.segs, q.maxSegmentSize) && Reopens(q, r)
    ensures r.WellFormed() && AllOk(r.segs, q.maxSegmentSize)
    ensures multiset(r.Pending()) == multiset(q.Pending()) && r.Usage() <= q.Usage()
  {
    hide Body, OnDisk, Loads, PendingOf, UsageOf, DistinctIds, Fits, SegOk;
    var files, l :| OnDisk(files, q) && Loads(files, l) && |l.names| == |l.segs|
      && l.maxSegmentSize == q.maxSegmentSize && l.maxSize == q.maxSize && r == l.Opened();
    LoadedIsPermuted(files, q, l);
    if l.Drained() {
      TrimKeeps(l);
    }
  }

  // ---------- every step keeps the invariant ----------

  lemma FreshInv(maxSegmentSize: int64, maxSize: int64)
    requires 0 <= maxSegmentSize && 0 <= maxSize
    ensures Inv(Fresh(maxSegmentSize, maxSize))
    ensures Fresh(maxSegmentSize, maxSize).q.names == [Format(1)]
    ensures Fresh(maxSegmentSize, maxSize).q.segs == [Empty]
  {
    var q := Q([], [], maxSegmentSize, maxSize);
    assert MaxId([]) == 0;
    assert q.Opened() == Q([Format(1)], [Empty], maxSegmentSize, maxSize);
    ParseFormat(1);
    EmptySize();
    PendingSingle(Empty);
    assert Consecutive([Format(1)], 1);
    assert [Empty][..0] == [];
    assert UsageOf([Empty]) == 8;
  }

  lemma {:induction false} MaxOfConsecutive(names: seq<string>, first: nat)
    requires Consecutive(names, first) && names != []
    ensures MaxId(names) == first + |names| - 1
  {
    hide Parse, Format, MaxId;
    var n := |names| - 1;
    ParseFormat(first + n);
    MaxIdSnoc(names, first + n);
    if n > 0 {
      assert Consecutive(names[..n], first);
      MaxOfConsecutive(names[..n], first);
    } else {
      assert names[..n] == [];
      NoIds();
    }
  }

  lemma NoIds()
    ensures MaxId([]) == 0
  {
  }

  lemma MaxIdSnoc(names: seq<string>, id: nat)
    requires names != [] && Parse(names[|names| - 1]) == Some(id)
    ensures var n := MaxId(names[..|names| - 1]); MaxId(names) == if id > n then id else n
  {
    hide Parse;
  }

  lemma AppendKeepsIds(q: Q, b: Bytes)
    requires q.WellFormed() && Ids(q)
    ensures Ids(q.Append(b).0)
  {
    hide Format, UsageOf, Body, AllFit, DistinctIds, MaxId;
    var first: nat :| Consecutive(q.names, first);
    MaxOfConsecutive(q.names, first);
    assert Consecutive(q.names + [Format(MaxId(q.names) + 1)], first);
  }

  lemma OkAfterAppend(s: Seg, b: Bytes, m: int)
    requires SegOk(s, m) && b != [] && s.Size() + |b| <= m
    ensures SegOk(s.Append(b), m)
  {
    AppendSize(s, b);
  }

  lemma AppendKeepsOk(q: Q, b: Bytes)
    requires q.WellFormed() && AllOk(q.segs, q.maxSegmentSize) && b != [] && 0 <= q.maxSegmentSize
    ensures AllOk(q.Append(b).0.segs, q.maxSegmentSize)
  {
    hide Body, UsageOf, Format, MaxId, AllFit, SegOk;
    EmptyFits(q.maxSegmentSize);
    EmptySize();
    if q.Last().Size() + |b| <= q.maxSegmentSize {
      OkAfterAppend(q.Last(), b, q.maxSegmentSize);
    } else if FOOTER + |b| <= q.maxSegmentSize {
      OkAfterAppend(Empty, b, q.maxSegmentSize);
    }
  }

  lemma AppendKeepsCurrent(q: Q, b: Bytes)
    requires q.WellFormed() && q.Current().1 == NoError
    ensures q.Append(b).0.Current() == q.Current()
  {
    hide Body, UsageOf, Format, MaxId, AllFit;
  }

  lemma WriteMoves(h: Handoff, e: Event, k: Handoff)
    requires Proper(h) && e.Write? && Step(h, e, k)
    ensures Proper(k) && Moves(h, k)
  {
    hide Body, UsageOf, PendingOf, Format, MaxId, AllFit, AllOk, DistinctIds, Q.Append;
    var b := Marshal(e.shard, e.payload);
    if h.detached {
      PendingSingle(Empty);
      assert Records(h.gone + [Gone(b, false)]) == Records(h.gone) + [b];
      return;
    }
    AppendLimits(h.q, b);
    AppendIsEnqueue(h.q, b);
    AppendKeepsOk(h.q, b);
    if h.inflight.Some? {
      AppendKeepsCurrent(h.q, b);
    }
    assert Moves(h, k);
  }

  lemma AppendLimits(q: Q, b: Bytes)
    requires q.segs != []
    ensures q.Append(b).0.maxSegmentSize == q.maxSegmentSize && q.Append(b).0.maxSize == q.maxSize
    ensures |q.Append(b).0.segs| >= |q.segs|
  {
    hide Body, UsageOf, Format, MaxId;
  }

  lemma BeginMoves(h: Handoff, e: Event, k: Handoff)
    requires Proper(h) && e.Begin? && Step(h, e, k)
    ensures Proper(k) && Moves(h, k) && k.q == h.q
  {
    hide Body, UsageOf, PendingOf, DistinctIds;
    OkIsSynced(h.q.segs[0], h.q.maxSegmentSize);
    RefreshSynced(h.q);
    CurrentIsFront(h.q);
  }

  lemma AdvanceKeepsIds(q: Q)
    requires q.WellFormed() && Ids(q)
    ensures Ids(q.TrimHead()) && Ids(q.Advance())
  {
    hide Format, Body, AllFit, DistinctIds;
    var first: nat :| Consecutive(q.names, first);
    if |q.segs| > 1 {
      assert Consecutive(q.names[1..], first + 1);
    }
  }

  lemma AdvanceKeepsOk(q: Q)
    requires q.WellFormed() && AllOk(q.segs, q.maxSegmentSize)
    ensures AllOk(q.Advance().segs, q.maxSegmentSize)
  {
    assert q.segs[0].Advance().blocks == q.segs[0].blocks;
  }

  lemma FinishMoves(h: Handoff, e: Event, k: Handoff)
    requires Proper(h) && e.Finish? && Step(h, e, k)
    ensures Proper(k) && Moves(h, k)
  {
    hide Body, UsageOf, PendingOf, AllFit, AllOk, DistinctIds;
    if e.outcome != Failed {
      AdvanceIsDequeue(h.q);
      AdvanceKeepsOk(h.q);
      CurrentIsFront(h.q);
      assert h.q.Pending() == [h.inflight.value] + Rest(h.q.Pending());
      assert Records(k.gone) == Records(h.gone) + [h.inflight.value];
      assert Moves(h, k);
    }
  }

  lemma AdvanceMoves(h: Handoff, e: Event, k: Handoff)
    requires Proper(h) && e.Advance? && Step(h, e, k)
    ensures Proper(k) && Moves(h, k)
  {
    hide Body, UsageOf, PendingOf, AllFit, AllOk, DistinctIds;
    AdvanceIsDequeue(h.q);
    AdvanceKeepsOk(h.q);
    CurrentIsFront(h.q);
    if !h.q.Drained() {
      assert h.q.Pending() == [h.q.Current().0] + Rest(h.q.Pending());
      assert Records(k.gone) == Records(h.gone) + [h.q.Current().0];
    }
    assert Moves(h, k);
  }

  lemma InOrderNames(q: Q)
    requires q.WellFormed() && Ids(q)
    ensures Sorted(q.names) <==> SameDigits(q.names)
  {
    hide Parse, Less, Format, Sorted, SameDigits, AllFit;
    var first: nat :| Consecutive(q.names, first);
    ConsecutiveSorted(q.names, first);
  }

  lemma ReopenKeepsOrder(h: Handoff, e: Event, k: Handoff)
    requires Proper(h) && Ids(h.q) && e.Reopen? && Step(h, e, k) && SameDigits(h.q.names)
    ensures Ids(k.q) && Ledger(k) == Ledger(h) && k.accepted == h.accepted
  {
    hide Body, UsageOf, PendingOf, AllFit, Ids, DistinctIds, Reopens, Sorted, SameDigits;
    InOrderNames(h.q);
    ReopenKeepsQueue(h.q, k.q);
    AdvanceKeepsIds(h.q);
  }

  lemma ReopenConserves(h: Handoff, e: Event, k: Handoff)
    requires Proper(h) && e.Reopen? && Step(h, e, k)
    ensures Proper(k) && multiset(Ledger(k)) == multiset(Ledger(h)) && k.accepted == h.accepted
  {
    hide Body, UsageOf, PendingOf, AllFit, Ids, DistinctIds, Reopens, Records, AllOk;
    ReopenPermutes(h.q, k.q);
    ReopenLimits(h.q, k.q);
  }

  lemma RecordsDropped(gone: seq<Gone>, rs: seq<Bytes>)
    ensures Records(gone + Dropped(rs)) == Records(gone) + rs
  {
  }

  lemma PurgeKeepsIds(q: Q, aged: set<string>)
    requires q.WellFormed() && Ids(q)
    ensures Ids(q.Purge(aged))
  {
    hide Format, Body, AllFit, DistinctIds, MaxId, AgedCount, Consecutive;
    var first: nat :| Consecutive(q.names, first);
    var n := AgedCount(q.names, aged);
    if n < |q.names| {
      ConsecutiveFrom(q.names, first, n);
    } else {
      var last := |q.names| - 1;
      ConsecutiveFrom(q.names, first, last);
      MaxOfConsecutive(q.names[last..], first + last);
      NextId(first + last + 1);
    }
  }

  lemma ConsecutiveFrom(names: seq<string>, first: nat, n: nat)
    requires Consecutive(names, first) && n < |names|
    ensures Consecutive(names[n..], first + n)
  {
    hide Format;
  }

  lemma NextId(id: nat)
    requires id > 0
    ensures Consecutive([Format(id)], id)
  {
    hide Format;
  }

  /** Purging keeps the rest of the queue as it is; what it drops is at the front. */
  lemma PurgeKeepsRest(q: Q, aged: set<string>)
    requires q.WellFormed() && 0 <= q.maxSegmentSize
    ensures q.Purge(aged).WellFormed() && q.Purge(aged).Usage() <= q.Usage()
    ensures q.Pending() == PendingOf(q.segs[..AgedCount(q.names, aged)]) + q.Purge(aged).Pending()
    ensures AllOk(q.segs, q.maxSegmentSize) ==> AllOk(q.Purge(aged).segs, q.maxSegmentSize)
  {
    hide Format, Body, MaxId, PendingOf, UsageOf, SegOk, Fits, AgedCount, DistinctIds;
    var n := AgedCount(q.names, aged);
    if n == |q.names| {
      var last := q.names[|q.names| - 1..];
      FreshName(last);
      SoleName(Format(MaxId(last) + 1));
      assert q.segs[..n] == q.segs;
      EmptyFits(q.maxSegmentSize);
      PendingSingle(Empty);
      UsageSingle(Empty);
      EmptySize();
      UsageAtLeast(q.segs);
    } else {
      assert q.segs == q.segs[..n] + q.segs[n..];
      PendingConcat(q.segs[..n], q.segs[n..]);
      UsageConcat(q.segs[..n], q.segs[n..]);
      DistinctFrom(q.names, n);
    }
  }

  lemma SoleName(name: string)
    requires Parse(name).Some?
    ensures DistinctIds([name])
  {
    hide Parse;
  }

  lemma DistinctFrom(names: seq<string>, n: nat)
    requires DistinctIds(names) && n <= |names|
    ensures DistinctIds(names[n..])
  {
    hide Parse;
  }

  lemma EmptyFits(m: int)
    requires 0 <= m
    ensures Fits(Empty, m) && SegOk(Empty, m)
  {
    EmptySize();
  }

  lemma NothingPending()
    ensures PendingOf([]) == []
  {
  }

  lemma UsageAtLeast(segs: seq<Seg>)
    requires segs != []
    ensures UsageOf(segs) >= FOOTER
  {
  }

  lemma PurgeMoves(h: Handoff, e: Event, k: Handoff)
    requires Proper(h) && e.Purge? && Step(h, e, k)
    ensures Proper(k) && Moves(h, k)
  {
    hide Body, UsageOf, PendingOf, AllFit, AllOk, DistinctIds, Q.Purge, Records, Dropped;
    PurgeKeepsRest(h.q, e.aged);
    PurgeLimits(h.q, e.aged);
    var dropped := PendingOf(h.q.segs[..AgedCount(h.q.names, e.aged)]);
    RecordsDropped(h.gone, dropped);
    assert Records(k.gone) + k.q.Pending() == Records(h.gone) + (dropped + k.q.Pending());
  }

  lemma PurgeLimits(q: Q, aged: set<string>)
    requires |q.names| == |q.segs| > 0
    ensures q.Purge(aged).maxSegmentSize == q.maxSegmentSize && q.Purge(aged).maxSize == q.maxSize
    ensures AllAged(q, aged) || q.segs == [Empty] ==> q.Purge(aged).segs == [Empty]
  {
    hide Format, MaxId;
  }

  /** Everything but reopening keeps the ledger as it is, up to what is accepted. */
  lemma StepMoves(h: Handoff, e: Event, k: Handoff)
    requires Proper(h) && Step(h, e, k) && !e.Reopen?
    ensures Proper(k) && Moves(h, k)
    ensures k.q.maxSegmentSize == h.q.maxSegmentSize && k.q.maxSize == h.q.maxSize
  {
    hide Proper, Moves, Q.WellFormed, Body, UsageOf, Format, MaxId, PendingOf, Dropped;
    match e {
      case Write(_, _) => WriteMoves(h, e, k);
      case Begin => BeginMoves(h, e, k);
      case Finish(_) => FinishMoves(h, e, k);
      case Advance => AdvanceMoves(h, e, k);
      case Purge(_) => PurgeMoves(h, e, k);
    }
  }

  lemma StepKeepsIds(h: Handoff, e: Event, k: Handoff)
    requires Proper(h) && Ids(h.q) && Step(h, e, k) && (e.Reopen? ==> SameDigits(h.q.names))
    ensures Ids(k.q)
  {
    hide Ids, SameDigits, Reopens, Q.Append, Q.Advance, Q.Purge, Q.Refresh, Body, UsageOf, PendingOf, Dropped, AllOk;
    match e {
      case Write(shard, payload) => AppendKeepsIds(h.q, Marshal(shard, payload));
      case Begin => BeginMoves(h, e, k);
      case Finish(_) => AdvanceKeepsIds(h.q);
      case Advance => AdvanceKeepsIds(h.q);
      case Purge(aged) => PurgeKeepsIds(h.q, aged);
      case Reopen => ReopenKeepsOrder(h, e, k);
    }
  }

  lemma LimitsKept(h: Handoff, e: Event, k: Handoff)
    requires Proper(h) && Step(h, e, k)
    ensures k.q.maxSegmentSize == h.q.maxSegmentSize && k.q.maxSize == h.q.maxSize
  {
    hide Proper, Moves, Reopens, Q.WellFormed, Body, UsageOf, Format, MaxId, PendingOf, Dropped;
    if e.Reopen? {
      ReopenLimits(h.q, k.q);
    } else {
      StepMoves(h, e, k);
    }
  }

  lemma StepKeepsInv(h: Handoff, e: Event, k: Handoff)
    requires Inv(h) && Step(h, e, k) && (e.Reopen? ==> SameDigits(h.q.names))
    ensures Inv(k)
    ensures k.q.maxSegmentSize == h.q.maxSegmentSize && k.q.maxSize == h.q.maxSize
  {
    hide Proper, Step, Ids, SameDigits, Ledger;
    LimitsKept(h, e, k);
    StepKeepsIds(h, e, k);
    if e.Reopen? {
      ReopenKeepsOrder(h, e, k);
      ReopenConserves(h, e, k);
    } else {
      StepMoves(h, e, k);
      Suffix(h.accepted, k.accepted);
    }
  }

  lemma Suffix<T>(a: seq<T>, b: seq<T>)
    requires a <= b
    ensures b == a + b[|a|..]
  {
  }

  /** Every event, reopening in any order included, keeps each accepted record gone or pending, once. */
  lemma StepConserves(h: Handoff, e: Event, k: Handoff)
    requires Proper(h) && Conserved(h) && Step(h, e, k)
    ensures Proper(k) && Conserved(k)
    ensures k.q.maxSegmentSize == h.q.maxSegmentSize && k.q.maxSize == h.q.maxSize
  {
    hide Proper, Step, Ledger;
    LimitsKept(h, e, k);
    if e.Reopen? {
      ReopenConserves(h, e, k);
    } else {
      StepMoves(h, e, k);
      Suffix(h.accepted, k.accepted);
    }
  }

  lemma ReopenLimits(q: Q, r: Q)
    requires Reopens(q, r)
    ensures r.maxSegmentSize == q.maxSegmentSize && r.maxSize == q.maxSize
  {
  }

  // ---------- whole runs ----------

  /** A run from an empty directory. */
  ghost predicate Run(hs: seq<Handoff>, es: seq<Event>, maxSegmentSize: int64, maxSize: int64) {
    && |hs| == |es| + 1
    && hs[0] == Fresh(maxSegmentSize, maxSize)
    && forall i :: 0 <= i < |es| ==> StepAt(hs, es, i)
  }

  ghost predicate StepAt(hs: seq<Handoff>, es: seq<Event>, i: nat)
    requires i < |es| < |hs|
  {
    Step(hs[i], es[i], hs[i + 1])
  }

  /** The queue is reopened only while all ids have the same number of digits. */
  ghost predicate KeepsOrder(hs: seq<Handoff>, es: seq<Event>)
    requires |es| < |hs|
  {
    forall i :: 0 <= i < |es| && es[i].Reopen? ==> SameDigits(hs[i].q.names)
  }

  /** In every state of every run each accepted record is gone or pending, exactly once. */
  lemma {:induction false} RunConserves(hs: seq<Handoff>, es: seq<Event>, m: int64, n: int64, i: nat)
    requires 0 <= m && 0 <= n && Run(hs, es, m, n) && i < |hs|
    ensures Proper(hs[i]) && hs[i].q.maxSegmentSize == m && hs[i].q.maxSize == n
    ensures multiset(hs[i].accepted) == multiset(Records(hs[i].gone) + hs[i].q.Pending())
  {
    hide Proper, Step, PendingOf;
    if i == 0 {
      FreshInv(m, n);
    } else {
      RunConserves(hs, es, m, n, i - 1);
      assert StepAt(hs, es, i - 1);
      StepConserves(hs[i - 1], es[i - 1], hs[i]);
    }
  }

  lemma {:induction false} RunKeepsInv(hs: seq<Handoff>, es: seq<Event>, m: int64, n: int64, i: nat)
    requires 0 <= m && 0 <= n && Run(hs, es, m, n) && KeepsOrder(hs, es) && i < |hs|
    ensures Inv(hs[i]) && hs[i].q.maxSegmentSize == m && hs[i].q.maxSize == n
  {
    hide Inv, Step;
    if i == 0 {
      FreshInv(m, n);
    } else {
      RunKeepsInv(hs, es, m, n, i - 1);
      assert StepAt(hs, es, i - 1);
      StepKeepsInv(hs[i - 1], es[i - 1], hs[i]);
    }
  }

  function DeliveredRecords(gone: seq<Gone>): (r: seq<Bytes>) {
    if gone == [] then []
    else
      var front := DeliveredRecords(gone[..|gone| - 1]);
      if gone[|gone| - 1].delivered then front + [gone[|gone| - 1].record] else front
  }

  lemma {:induction false} AllDelivered(gone: seq<Gone>)
    requires forall g :: g in gone ==> g.delivered
    ensures DeliveredRecords(gone) == Records(gone)
  {
    if gone != [] {
      AllDelivered(gone[..|gone| - 1]);
      assert Records(gone) == Records(gone[..|gone| - 1]) + [gone[|gone| - 1].record];
    }
  }

  /** Every record read could be decoded, nobody but the sender advances, and nothing gets too old. */
  ghost predicate NothingSkipped(es: seq<Event>) {
    forall j :: 0 <= j < |es| ==> es[j] != Finish(Unreadable) && es[j] != Advance && !es[j].Purge?
  }

  lemma {:induction false} OnlyDeliveredGone(hs: seq<Handoff>, es: seq<Event>, m: int64, n: int64, i: nat)
    requires Run(hs, es, m, n) && i < |hs|
    requires NothingSkipped(es)
    ensures !hs[i].detached && forall g :: g in hs[i].gone ==> g.delivered
  {
    hide Q.Append, Q.Current, Q.Refresh, Q.Advance, Reopens;
    if i > 0 {
      OnlyDeliveredGone(hs, es, m, n, i - 1);
      assert StepAt(hs, es, i - 1);
    }
  }

  /**
   The queue is a FIFO over every run that reopens it in order: what was accepted is, in
   order, what left the queue followed by what is pending. If every record can be decoded,
   the records delivered so far are a prefix of those accepted.
   */
  lemma DeliveredIsPrefixOfAccepted(hs: seq<Handoff>, es: seq<Event>, m: int64, n: int64, i: nat)
    requires 0 <= m && 0 <= n && Run(hs, es, m, n) && KeepsOrder(hs, es) && i < |hs|
    ensures hs[i].accepted == Records(hs[i].gone) + hs[i].q.Pending()
    ensures NothingSkipped(es) ==>
              && hs[i].accepted == DeliveredRecords(hs[i].gone) + hs[i].q.Pending()
              && DeliveredRecords(hs[i].gone) <= hs[i].accepted
  {
    hide Run, Step, Q.WellFormed, AllOk, PendingOf, UsageOf;
    RunKeepsInv(hs, es, m, n, i);
    if NothingSkipped(es) {
      OnlyDeliveredGone(hs, es, m, n, i);
      AllDelivered(hs[i].gone);
    }
  }

  /** Whatever is accepted or refused, the files stay within 16 bytes of the limit. */
  lemma DiskBound(hs: seq<Handoff>, es: seq<Event>, m: int64, n: int64, i: nat)
    requires 0 <= m && 0 <= n && Run(hs, es, m, n) && i < |hs|
    ensures UsageOf(hs[i].q.segs) <= n + 16
    ensures forall j :: 0 <= j < |hs[i].q.segs| ==> hs[i].q.segs[j].Size() <= m + 8
  {
    hide Run, Step, Q.WellFormed, PendingOf, UsageOf, Body;
    RunConserves(hs, es, m, n, i);
  }

  // ---------- records that are never sent ----------

  /** The head is drained, other segments wait behind it, and nothing is being sent. */
  ghost predicate Stuck(h: Handoff) {
    h.q.Drained() && |h.q.segs| > 1 && h.inflight.None?
  }

  /** The event leaves the queue stuck: told from the state before it. */
  ghost predicate Strands(h: Handoff, e: Event)
    requires |h.q.names| == |h.q.segs| > 0
  {
    var segs := h.q.segs;
    match e
    case Write(shard, payload) =>
      var b := Marshal(shard, payload);
      || Stuck(h)
      // it is accepted or refused on a new segment behind a sole one that is drained
      || (!h.detached && h.inflight.None? && h.q.Drained()
          && h.q.Usage() + |b| <= h.q.maxSize && h.q.Last().Size() + |b| > h.q.maxSegmentSize)
    case Begin => Stuck(h)
    case Finish(outcome) =>
      // an empty segment follows
      outcome != Failed && |segs| > 2 && segs[0].head + 1 == |segs[0].blocks| && segs[1].Drained()
    case Advance => |segs| > 2 && segs[0].head + 1 >= |segs[0].blocks| && segs[1].Drained()
    case Purge(aged) =>
      var n := AgedCount(h.q.names, aged);
      n + 1 < |segs| && segs[n].Drained()
    case Reopen =>
      // the first two by name: one is trimmed, the other is the head
      |segs| > 2 && exists i, j :: FirstTwo(h.q.names, i, j) && segs[i].Drained() && segs[j].Drained()
  }

  /** Where the first and the second name in string order are. */
  ghost predicate FirstTwo(names: seq<string>, i: int, j: int) {
    && 0 <= i < |names| && 0 <= j < |names| && Less(names[i], names[j])
    && forall m :: 0 <= m < |names| && m != i && m != j ==> Less(names[j], names[m])
  }

  lemma WriteStrandsExact(h: Handoff, e: Event, k: Handoff)
    requires Proper(h) && e.Write? && Step(h, e, k)
    ensures Stuck(k) <==> Strands(h, e)
  {
    hide UsageOf, Body, Format, MaxId, AllFit, AllOk, Ids, DistinctIds, PendingOf;
  }

  lemma FinishStrandsExact(h: Handoff, e: Event, k: Handoff)
    requires Proper(h) && (e.Finish? || e.Advance? || e.Begin?) && Step(h, e, k)
    ensures Stuck(k) <==> Strands(h, e)
  {
    hide UsageOf, Body, Format, MaxId, AllOk, Ids, DistinctIds, PendingOf;
  }

  lemma PurgeStrandsExact(h: Handoff, e: Event, k: Handoff)
    requires Proper(h) && e.Purge? && Step(h, e, k)
    ensures Stuck(k) <==> Strands(h, e)
  {
    hide UsageOf, Body, Format, MaxId, AllFit, AllOk, Ids, DistinctIds, PendingOf;
  }

  lemma {:induction false} SameLength(a: seq<string>, b: seq<string>)
    requires AllDifferent(a) && AllDifferent(b) && SameMembers(a, b)
    ensures |a| == |b|
    decreases |a|
  {
    hide AllDifferent;
    if a == [] {
      NoMembers(b);
    } else {
      assert a[0] in a;
      var j :| 0 <= j < |b| && b[j] == a[0];
      WithoutName(a, b, j);
      SameLength(a[1..], b[..j] + b[j + 1..]);
    }
  }

  lemma LessAsymmetric(a: string, b: string)
    requires Less(a, b)
    ensures a != b && !Less(b, a)
  {
    hide Less;
    LessIrreflexive(a);
    if Less(b, a) {
      LessTransitive(a, b, a);
    }
  }

  /** In a sorted list of the same names they are at the front. */
  lemma SortedFront(names: seq<string>, l: seq<string>, i: nat, j: nat)
    requires AllDifferent(names) && SameMembers(names, l) && Sorted(l) && |l| > 1
    requires i < |names| && j < |names| && names[i] == l[0] && names[j] == l[1]
    ensures FirstTwo(names, i, j)
  {
    hide Less;
    forall m | 0 <= m < |names| && m != i && m != j ensures Less(names[j], names[m]) {
      assert names[m] in names;
      var n :| 0 <= n < |l| && l[n] == names[m];
    }
  }

  lemma FirstOfTwo(names: seq<string>, i: int, j: int, m: int)
    requires FirstTwo(names, i, j) && 0 <= m < |names| && m != i
    ensures Less(names[i], names[m])
  {
    hide Less;
    if m != j {
      LessTransitive(names[i], names[j], names[m]);
    }
  }

  lemma FirstTwoUnique(names: seq<string>, i: int, j: int, x: int, y: int)
    requires FirstTwo(names, i, j) && FirstTwo(names, x, y)
    ensures i == x && j == y
  {
    hide Less;
    LessAsymmetric(names[i], names[j]);
    LessAsymmetric(names[x], names[y]);
    if i != x {
      FirstOfTwo(names, i, j, x);
      FirstOfTwo(names, x, y, i);
      LessAsymmetric(names[i], names[x]);
    } else if j != y {
      LessAsymmetric(names[j], names[y]);
    }
  }

  /** What the loaded segments begin with. */
  lemma LoadedFront(files: map<string, Bytes>, q: Q, l: Q) returns (i: nat, j: nat)
    requires q.Consistent() && AllOk(q.segs, q.maxSegmentSize) && OnDisk(files, q) && Loads(files, l) && |q.segs| > 1
    ensures |l.segs| == |l.names| == |q.segs| && i < |q.segs| && j < |q.segs| && FirstTwo(q.names, i, j)
    ensures l.segs[0] == q.segs[i] && l.segs[1] == q.segs[j]
  {
    hide Body, OnDisk, AllDifferent, DistinctIds, AllFit, SegOk, Less, Meaning, IsSegmentFile, FirstTwo;
    LoadedMembers(files, q, l);
    SameLength(q.names, l.names);
    assert l.names[0] in l.names && l.names[1] in l.names;
    i :| 0 <= i < |q.names| && q.names[i] == l.names[0];
    j :| 0 <= j < |q.names| && q.names[j] == l.names[1];
    SortedFront(q.names, l.names, i, j);
    LoadedAt(files, q, l, i, 0);
    LoadedAt(files, q, l, j, 1);
  }

  lemma LoadedCount(files: map<string, Bytes>, q: Q, l: Q)
    requires q.Consistent() && OnDisk(files, q) && Loads(files, l)
    ensures |l.segs| == |l.names| == |q.segs|
  {
    hide Body, OnDisk, AllDifferent, DistinctIds, AllFit, Less, Meaning, IsSegmentFile, SameMembers;
    LoadedMembers(files, q, l);
    SameLength(q.names, l.names);
  }

  lemma OpenedDrained(l: Q)
    requires |l.names| == |l.segs| > 0
    ensures var r := l.Opened();
            r.Drained() && |r.segs| > 1 <==> |l.segs| > 2 && l.segs[0].Drained() && l.segs[1].Drained()
  {
    hide Body, Format, MaxId;
  }

  lemma ReopenStrandsExact(h: Handoff, e: Event, k: Handoff)
    requires Proper(h) && e.Reopen? && Step(h, e, k)
    ensures Stuck(k) <==> Strands(h, e)
  {
    hide UsageOf, Body, AllOk, AllFit, DistinctIds, PendingOf, OnDisk, Loads, Q.Opened, FirstTwo;
    var q := h.q;
    var files, l :| OnDisk(files, q) && Loads(files, l) && |l.names| == |l.segs|
      && l.maxSegmentSize == q.maxSegmentSize && l.maxSize == q.maxSize && k.q == l.Opened();
    LoadedCount(files, q, l);
    OpenedDrained(l);
    if |q.segs| > 2 {
      var i, j := LoadedFront(files, q, l);
      forall x, y | FirstTwo(q.names, x, y) ensures x == i && y == j {
        FirstTwoUnique(q.names, x, y, i, j);
      }
    }
  }

  /** Exactly which events strand the queue, and so also which of them free it. */
  lemma StrandsExact(h: Handoff, e: Event, k: Handoff)
    requires Proper(h) && Step(h, e, k)
    ensures Stuck(k) <==> Strands(h, e)
  {
    hide Proper, Stuck, Strands, Step;
    match e {
      case Write(_, _) => WriteStrandsExact(h, e, k);
      case Begin => FinishStrandsExact(h, e, k);
      case Finish(_) => FinishStrandsExact(h, e, k);
      case Advance => FinishStrandsExact(h, e, k);
      case Purge(_) => PurgeStrandsExact(h, e, k);
      case Reopen => ReopenStrandsExact(h, e, k);
    }
  }

  lemma StuckStep(h: Handoff, e: Event, k: Handoff)
    requires Stuck(h) && !h.detached && Step(h, e, k) && !e.Reopen? && !e.Advance? && !e.Purge?
    ensures Stuck(k) && !k.detached && k.gone == h.gone
  {
    hide UsageOf, Body, Format, MaxId;
  }

  /** Without a restart, a purge or an outside advance, no continuation delivers another record. */
  lemma {:induction false} StuckForever(hs: seq<Handoff>, es: seq<Event>)
    requires |hs| == |es| + 1 && Stuck(hs[0]) && !hs[0].detached
    requires forall i :: 0 <= i < |es| ==> StepAt(hs, es, i) && !es[i].Reopen? && !es[i].Advance? && !es[i].Purge?
    ensures Stuck(hs[|es|]) && !hs[|es|].detached && hs[|es|].gone == hs[0].gone
    decreases |es|
  {
    hide Step, Stuck;
    if es != [] {
      var n := |es| - 1;
      var hs', es' := hs[..n + 1], es[..n];
      forall i | 0 <= i < n ensures StepAt(hs', es', i) && es'[i] == es[i] {
        assert StepAt(hs, es, i);
      }
      StuckForever(hs', es');
      assert StepAt(hs, es, n);
      StuckStep(hs[n], es[n], hs[n + 1]);
    }
  }

  lemma StepStaysProper(h: Handoff, e: Event, k: Handoff)
    requires Proper(h) && Step(h, e, k)
    ensures Proper(k)
  {
    hide Proper, Step, Moves;
    if e.Reopen? {
      ReopenConserves(h, e, k);
    } else {
      StepMoves(h, e, k);
    }
  }

  /** After an event the sender finds nothing although records are pending exactly if the event strands the queue. */
  lemma IdleWithPendingExact(h: Handoff, e: Event, k: Handoff)
    requires Proper(h) && Step(h, e, k)
    ensures k.inflight.None? && k.q.Pending() != [] && k.q.Current().1 == EOF <==> Strands(h, e) && k.q.Pending() != []
  {
    hide UsageOf, Body, AllOk, DistinctIds, Step, Strands, Moves;
    StepStaysProper(h, e, k);
    StrandsExact(h, e, k);
    CurrentIsFront(k.q);
    if k.q.Drained() && |k.q.segs| == 1 {
      assert k.q.segs == [k.q.segs[0]];
      PendingSingle(k.q.segs[0]);
    }
  }

  /** A record that does not fit behind a fully delivered sole segment is accepted and stranded. */
  lemma RollStrands(h: Handoff, e: Event, k: Handoff)
    requires Proper(h) && h.inflight.None? && h.q.Drained() && |h.q.segs| == 1 && !h.detached
    requires e.Write? && Step(h, e, k)
    ensures var b := Marshal(e.shard, e.payload);
            Stuck(k) && k.q.Pending() == [b] <==>
              && h.q.Last().Size() + |b| > h.q.maxSegmentSize >= FOOTER + |b|
              && h.q.Usage() + |b| <= h.q.maxSize
  {
    hide UsageOf, Body, AllOk, DistinctIds, Format, MaxId, Step, Strands, PendingOf, Q.Append, Marshal;
    var b := Marshal(e.shard, e.payload);
    WriteStrandsExact(h, e, k);
    StrandsBehindSole(h, e);
    WrittenQueue(h, e, k);
    AppendIsEnqueue(h.q, b);
    NewSegmentFits(h.q, b);
    assert h.q.segs == [h.q.segs[0]];
    PendingSingle(h.q.segs[0]);
  }

  lemma NewSegmentFits(q: Q, b: Bytes)
    requires q.segs != []
    ensures q.Usage() + |b| <= q.maxSize && q.Last().Size() + |b| > q.maxSegmentSize ==>
              (q.Append(b).1 == NoError <==> FOOTER + |b| <= q.maxSegmentSize)
  {
    hide UsageOf, Body, Format, MaxId;
  }

  lemma WrittenQueue(h: Handoff, e: Event, k: Handoff)
    requires e.Write? && Step(h, e, k) && !h.detached
    ensures k.q == h.q.Append(Marshal(e.shard, e.payload)).0
  {
    hide Q.Append, Marshal;
  }

  lemma StrandsBehindSole(h: Handoff, e: Event)
    requires e.Write? && |h.q.names| == |h.q.segs| == 1 && h.inflight.None? && h.q.Drained() && !h.detached
    ensures var b := Marshal(e.shard, e.payload);
            Strands(h, e) <==> h.q.Usage() + |b| <= h.q.maxSize && h.q.Last().Size() + |b| > h.q.maxSegmentSize
  {
    hide UsageOf, Body, Marshal;
  }

  // ---------- records that are accepted and lost ----------

  /** Event `j` is a purge that finds every segment too old, and the queue is not reopened between it and event `i`. */
  ghost predicate LostTail(hs: seq<Handoff>, es: seq<Event>, j: int, i: int)
    requires 0 <= j < i <= |es| < |hs|
  {
    es[j].Purge? && AllAged(hs[j].q, es[j].aged) && forall k :: j < k < i ==> !es[k].Reopen?
  }

  ghost predicate TailIsLost(hs: seq<Handoff>, es: seq<Event>, i: nat)
    requires i <= |es| < |hs|
  {
    exists j :: 0 <= j < i && LostTail(hs, es, j, i)
  }

  lemma DetachedStepExact(h: Handoff, e: Event, k: Handoff)
    requires Step(h, e, k)
    ensures k.detached <==> (h.detached && !e.Reopen?) || (e.Purge? && AllAged(h.q, e.aged))
  {
    hide UsageOf, Body, Format, MaxId, PendingOf, AgedCount;
  }

  lemma TailIsLostStep(hs: seq<Handoff>, es: seq<Event>, i: nat)
    requires i < |es| < |hs|
    ensures TailIsLost(hs, es, i + 1) <==>
              (TailIsLost(hs, es, i) && !es[i].Reopen?) || (es[i].Purge? && AllAged(hs[i].q, es[i].aged))
  {
    hide AllAged;
    if es[i].Purge? && AllAged(hs[i].q, es[i].aged) {
      assert LostTail(hs, es, i, i + 1);
    } else if TailIsLost(hs, es, i) && !es[i].Reopen? {
      var j :| 0 <= j < i && LostTail(hs, es, j, i);
      assert LostTail(hs, es, j, i + 1);
    }
    if TailIsLost(hs, es, i + 1) {
      var j :| 0 <= j < i + 1 && LostTail(hs, es, j, i + 1);
      if j < i {
        assert LostTail(hs, es, j, i);
      }
    }
  }

  /** In every run the tail is detached exactly if a purge found every segment too old and no reopening came since. */
  lemma {:induction false} DetachedExact(hs: seq<Handoff>, es: seq<Event>, m: int64, n: int64, i: nat)
    requires Run(hs, es, m, n) && i < |hs|
    ensures hs[i].detached <==> TailIsLost(hs, es, i)
  {
    hide Step, TailIsLost;
    if i == 0 {
      FreshAttached(m, n);
      NoTailLostYet(hs, es);
    } else {
      DetachedExact(hs, es, m, n, i - 1);
      assert StepAt(hs, es, i - 1);
      DetachedStepExact(hs[i - 1], es[i - 1], hs[i]);
      TailIsLostStep(hs, es, i - 1);
    }
  }

  lemma FreshAttached(m: int64, n: int64)
    ensures !Fresh(m, n).detached
  {
  }

  lemma NoTailLostYet(hs: seq<Handoff>, es: seq<Event>)
    requires |es| < |hs|
    ensures !TailIsLost(hs, es, 0)
  {
  }

  /** A write is accepted and its record is not pending exactly if the tail is detached and an empty queue has room. */
  lemma WriteLostExact(h: Handoff, e: Event, k: Handoff)
    requires Proper(h) && e.Write? && Step(h, e, k)
    ensures k.accepted != h.accepted && k.q.Pending() == h.q.Pending() <==>
              h.detached && FOOTER + |Marshal(e.shard, e.payload)| <= h.q.maxSize
  {
    hide UsageOf, Body, Format, MaxId, AllFit, AllOk, DistinctIds, Marshal, PendingOf, Q.Append;
    AppendIsEnqueue(h.q, Marshal(e.shard, e.payload));
    UsageSingle(Empty);
    EmptySize();
  }

  /**
   In every run a write is accepted and lost if and only if it would fit an empty queue
   and a purge before it found every segment too old, with no reopening since.
   */
  lemma AcceptedAndLostExact(hs: seq<Handoff>, es: seq<Event>, m: int64, n: int64, i: nat)
    requires 0 <= m && 0 <= n && Run(hs, es, m, n) && i < |es| && es[i].Write?
    ensures hs[i + 1].accepted != hs[i].accepted && hs[i + 1].q.Pending() == hs[i].q.Pending() <==>
              FOOTER + |Marshal(es[i].shard, es[i].payload)| <= n && TailIsLost(hs, es, i)
  {
    hide Step, Proper, TailIsLost, Marshal, PendingOf;
    RunConserves(hs, es, m, n, i);
    DetachedExact(hs, es, m, n, i);
    assert StepAt(hs, es, i);
    WriteLostExact(hs[i], es[i], hs[i + 1]);
  }

  lemma DetachedStep(h: Handoff, e: Event, k: Handoff)
    requires Proper(h) && h.detached && Step(h, e, k) && !e.Reopen?
    ensures k.detached && DeliveredRecords(k.gone) == DeliveredRecords(h.gone)
  {
    hide UsageOf, Body, Format, MaxId, AllFit, AllOk, DistinctIds, Marshal;
    PendingSingle(Empty);
    if e.Write? {
      var b := Marshal(e.shard, e.payload);
      assert (h.gone + [Gone(b, false)])[..|h.gone|] == h.gone;
    } else if e.Purge? {
      var n := AgedCount(h.q.names, e.aged);
      assert h.q.segs[..n] == [] || h.q.segs[..n] == [Empty];
      NothingPending();
      assert h.gone + Dropped([]) == h.gone;
    }
  }

  /** Until it is reopened, such a queue accepts records and delivers none of them. */
  lemma {:induction false} DetachedForever(hs: seq<Handoff>, es: seq<Event>)
    requires |hs| == |es| + 1 && Proper(hs[0]) && hs[0].detached
    requires forall i :: 0 <= i < |es| ==> StepAt(hs, es, i) && !es[i].Reopen?
    ensures Proper(hs[|es|]) && hs[|es|].detached
    ensures DeliveredRecords(hs[|es|].gone) == DeliveredRecords(hs[0].gone) && hs[|es|].q.Pending() == []
    decreases |es|
  {
    hide Step, Q.WellFormed, DeliveredRecords, AllOk, Moves;
    if es != [] {
      var n := |es| - 1;
      var hs', es' := hs[..n + 1], es[..n];
      forall i | 0 <= i < n ensures StepAt(hs', es', i) && es'[i] == es[i] {
        assert StepAt(hs, es, i);
      }
      DetachedForever(hs', es');
      assert StepAt(hs, es, n);
      StepMoves(hs[n], es[n], hs[n + 1]);
      DetachedStep(hs[n], es[n], hs[n + 1]);
    }
    PendingSingle(Empty);
  }

  /** An idle queue that has grown old is enough: the next record is accepted and is nowhere. */
  lemma LostRunExists() returns (hs: seq<Handoff>, es: seq<Event>)
    ensures Run(hs, es, 40, 1000) && hs[|es|].detached
    ensures hs[|es|].accepted == [Marshal(0, ZeroPayload())] && hs[|es|].q.Pending() == []
    ensures DeliveredRecords(hs[|es|].gone) == []
  {
    hide Step, Fresh, Marshal, ZeroPayload, DeliveredRecords, Q.Purge, MaxId, Format;
    var h0 := Fresh(40, 1000);
    FreshInv(40, 1000);
    FreshStart();
    var h1 := AllPurged(h0);
    var h2 := LostWrite(h1, 0, ZeroPayload());
    hs, es := [h0, h1, h2], [Purge({Format(1)}), Write(0, ZeroPayload())];
    assert StepAt(hs, es, 0) && StepAt(hs, es, 1);
    PendingSingle(Empty);
  }

  lemma AllPurged(h: Handoff) returns (k: Handoff)
    requires h.q.names == [Format(1)] && h.q.segs == [Empty] && h.inflight.None? && h.gone == []
    ensures Step(h, Purge({Format(1)}), k) && k.detached && k.q.segs == [Empty] && k == h.(q := k.q, detached := true)
    ensures |k.q.names| == 1 && k.q.maxSize == h.q.maxSize
  {
    hide Format, MaxId;
    assert h.q.segs[..1] == [Empty];
    PendingSingle(Empty);
    assert h.gone + Dropped([]) == h.gone;
    k := h.(q := h.q.Purge({Format(1)}), detached := true);
  }

  lemma LostWrite(h: Handoff, shard: uint64, payload: Bytes) returns (k: Handoff)
    requires h.detached && h.q.segs == [Empty] && |h.q.names| == 1 && h.q.maxSize == 1000 && |payload| == 8
    requires h.gone == [] && h.accepted == []
    ensures Step(h, Write(shard, payload), k) && k.detached && k.q.segs == [Empty]
    ensures k.accepted == [Marshal(shard, payload)] && DeliveredRecords(k.gone) == []
  {
    hide Format, MaxId, Body, UsageOf, PutUint64;
    UsageSingle(Empty);
    EmptySize();
    var b := Marshal(shard, payload);
    k := h.(accepted := [b], gone := [Gone(b, false)]);
    assert k.gone[..0] == [];
  }

  // ---------- runs that get there ----------

  lemma RunExtend(hs: seq<Handoff>, es: seq<Event>, m: int64, n: int64, e: Event, k: Handoff)
    requires Run(hs, es, m, n) && Step(hs[|es|], e, k)
    ensures Run(hs + [k], es + [e], m, n) && (hs + [k])[|es + [e]|] == k
  {
    hide Step, Fresh;
    forall i | 0 <= i < |es + [e]| ensures StepAt(hs + [k], es + [e], i) {
      if i < |es| {
        assert StepAt(hs, es, i);
      }
    }
  }

  function ZeroPayload(): (p: Bytes)
    ensures |p| == 8
  {
    [0, 0, 0, 0, 0, 0, 0, 0]
  }

  lemma FirstWrite(h: Handoff, shard: uint64, payload: Bytes) returns (k: Handoff)
    requires h == Fresh(40, 1000) && |payload| == 8
    ensures var b := Marshal(shard, payload);
            Step(h, Write(shard, payload), k) && k.accepted == [b] && k == h.(q := k.q, accepted := [b]) && !k.detached
    ensures k.q == Q([Format(1)], [Seg([Marshal(shard, payload)], 0, 16)], 40, 1000)
  {
    hide Body, Format, MaxId, PutUint64, UsageOf;
    FreshInv(40, 1000);
    UsageSingle(Empty);
    EmptySize();
    k := h.(q := h.q.Append(Marshal(shard, payload)).0, accepted := [Marshal(shard, payload)]);
  }

  lemma SendOnly(h: Handoff, b: Bytes) returns (k: Handoff, m: Handoff)
    requires |b| == 16 && h.q == Q([Format(1)], [Seg([b], 0, 16)], 40, 1000) && h.inflight.None? && h.gone == []
    ensures Step(h, Begin, k) && Step(k, Finish(Delivered), m)
    ensures m == h.(q := Q([Format(1)], [Seg([b], 1, 0)], 40, 1000), gone := [Gone(b, true)])
  {
    hide Body, Format, MaxId, UsageOf;
    k := h.(inflight := Some(b));
    assert h.q.Refresh() == h.q;
    m := k.(q := k.q.Advance(), inflight := None, gone := [Gone(b, true)]);
  }

  lemma WriteBehindDrained(h: Handoff, shard: uint64, payload: Bytes) returns (k: Handoff)
    requires |payload| == 8 && |h.accepted| == 1 && !h.detached
    requires h.q == Q([Format(1)], [Seg([Marshal(shard, payload)], 1, 0)], 40, 1000) && h.inflight.None?
    ensures Step(h, Write(shard, payload), k) && Stuck(k) && |k.accepted| == 2 && k.gone == h.gone
  {
    hide Body, Format, MaxId, PutUint64, UsageOf;
    var b := Marshal(shard, payload);
    var s := Seg([b], 1, 0);
    EmptySize();
    AppendSize(Seg([], 1, 0), b);
    assert [] + [b] == [b];
    UsageSingle(s);
    var q := h.q.AddSegment();
    k := h.(q := q.WithLast(Empty.Append(b)), accepted := h.accepted + [b]);
    assert h.q.Append(b) == (k.q, NoError);
  }

  /** Such runs exist: two equal records, the first delivered, the second stuck for good. */
  lemma StrandedRunExists() returns (hs: seq<Handoff>, es: seq<Event>)
    ensures Run(hs, es, 40, 1000) && Stuck(hs[|es|])
    ensures |hs[|es|].accepted| == 2 && |hs[|es|].gone| == 1
  {
    hide Step, Stuck, Fresh, Format, Marshal, ZeroPayload;
    var w := Write(0, ZeroPayload());
    var h0 := Fresh(40, 1000);
    var h1 := FirstWrite(h0, 0, ZeroPayload());
    FreshStart();
    var h2, h3 := SendOnly(h1, Marshal(0, ZeroPayload()));
    var h4 := WriteBehindDrained(h3, 0, ZeroPayload());
    hs, es := [h0, h1, h2, h3, h4], [w, Begin, Finish(Delivered), w];
    assert StepAt(hs, es, 0) && StepAt(hs, es, 1) && StepAt(hs, es, 2) && StepAt(hs, es, 3);
  }

  lemma FreshStart()
    ensures Fresh(40, 1000).inflight.None? && Fresh(40, 1000).gone == [] && !Fresh(40, 1000).detached
    ensures Fresh(40, 1000).accepted == [] && Fresh(40, 1000).q.maxSize == 1000
    ensures |Marshal(0, ZeroPayload())| == |Marshal(1, ZeroPayload())| == 16
    ensures Marshal(0, ZeroPayload()) != Marshal(1, ZeroPayload())
  {
    Uint64RoundTrip(0);
    Uint64RoundTrip(1);
    assert Marshal(0, ZeroPayload())[..8] == PutUint64(0) && Marshal(1, ZeroPayload())[..8] == PutUint64(1);
  }

  /** A sole segment with this id and one record in it. */
  ghost predicate OneRecord(h: Handoff, id: nat, b: Bytes) {
    h.q == Q([Format(id)], [Seg([b], 0, 16)], 40, 1000) && h.inflight.None? && !h.detached
  }

  lemma WriteRolls(h: Handoff, id: nat, b: Bytes, shard: uint64, payload: Bytes) returns (k: Handoff)
    requires OneRecord(h, id, b) && |b| == 16 && |payload| == 8
    ensures Step(h, Write(shard, payload), k) && k.inflight.None? && !k.detached
    ensures k.q == Q([Format(id), Format(id + 1)], [Seg([b], 0, 16), Seg([Marshal(shard, payload)], 0, 16)], 40, 1000)
  {
    hide Body, Format, PutUint64, UsageOf, MaxId, Parse;
    var c := Marshal(shard, payload);
    EmptySize();
    AppendSize(Seg([], 0, 16), b);
    assert [] + [b] == [b];
    assert Seg([], 0, 16).Size() == FOOTER by { EmptyBody(); }
    UsageSingle(Seg([b], 0, 16));
    SoleId(id);
    var q := h.q.AddSegment();
    assert q.names == [Format(id), Format(id + 1)] && q.segs == [Seg([b], 0, 16), Empty];
    assert Empty.Append(c) == Seg([c], 0, 16);
    k := h.(q := q.WithLast(Empty.Append(c)), accepted := h.accepted + [c]);
    assert h.q.Append(c) == (k.q, NoError);
  }

  lemma EmptyBody()
    ensures Body([]) == []
  {
  }

  lemma SoleId(id: nat)
    ensures MaxId([Format(id)]) == id
  {
    hide Parse, Format;
    ParseFormat(id);
    assert MaxId([Format(id)][..0]) == 0;
  }

  lemma SendFirst(h: Handoff, id: nat, b: Bytes, c: Bytes) returns (k: Handoff, m: Handoff)
    requires h.q == Q([Format(id), Format(id + 1)], [Seg([b], 0, 16), Seg([c], 0, 16)], 40, 1000)
    requires |b| == 16 && h.inflight.None? && !h.detached
    ensures Step(h, Begin, k) && Step(k, Finish(Delivered), m) && OneRecord(m, id + 1, c)
  {
    hide Body, Format, MaxId, UsageOf;
    k := h.(inflight := Some(b));
    assert h.q.Refresh() == h.q;
    m := k.(q := k.q.Advance(), inflight := None, gone := h.gone + [Gone(b, true)]);
  }

  /** Every id comes up: one record per segment, each delivered once the next is there. */
  lemma {:induction false} ReachId(id: nat) returns (hs: seq<Handoff>, es: seq<Event>)
    requires id > 0
    ensures Run(hs, es, 40, 1000) && OneRecord(hs[|es|], id, Marshal(0, ZeroPayload()))
  {
    hide Step, Fresh, Format, Marshal, ZeroPayload, Run;
    var b, w := Marshal(0, ZeroPayload()), Write(0, ZeroPayload());
    FreshStart();
    if id == 1 {
      var h0 := Fresh(40, 1000);
      var h1 := FirstWrite(h0, 0, ZeroPayload());
      StartRun(40, 1000);
      RunExtend([h0], [], 40, 1000, w, h1);
      hs, es := [h0] + [h1], [] + [w];
    } else {
      var hs1, es1 := ReachId(id - 1);
      RunShape(hs1, es1, 40, 1000);
      var h1 := WriteRolls(hs1[|es1|], id - 1, b, 0, ZeroPayload());
      var h2, h3 := SendFirst(h1, id - 1, b, b);
      RunExtend(hs1, es1, 40, 1000, w, h1);
      RunExtend(hs1 + [h1], es1 + [w], 40, 1000, Begin, h2);
      RunExtend(hs1 + [h1] + [h2], es1 + [w] + [Begin], 40, 1000, Finish(Delivered), h3);
      hs, es := hs1 + [h1] + [h2] + [h3], es1 + [w] + [Begin] + [Finish(Delivered)];
    }
  }

  lemma StartRun(m: int64, n: int64)
    ensures Run([Fresh(m, n)], [], m, n)
  {
  }

  lemma RunShape(hs: seq<Handoff>, es: seq<Event>, m: int64, n: int64)
    requires Run(hs, es, m, n)
    ensures |hs| == |es| + 1
  {
  }

  /** The files a queue would leave. */
  ghost function FilesOf(names: seq<string>, segs: seq<Seg>): (files: map<string, Bytes>)
    requires |names| == |segs| && forall i :: 0 <= i < |segs| ==> segs[i].head <= |segs[i].blocks|
    ensures forall k :: k in files <==> k in names
  {
    if names == [] then map[]
    else
      var n := |names| - 1;
      assert names == names[..n] + [names[n]];
      FilesOf(names[..n], segs[..n])[names[n] := FileOf(segs[n])]
  }

  lemma {:induction false} FilesOfAt(names: seq<string>, segs: seq<Seg>, i: nat)
    requires |names| == |segs| && (forall j :: 0 <= j < |segs| ==> segs[j].head <= |segs[j].blocks|) && i < |names|
    requires forall j, k :: 0 <= j < k < |names| ==> names[j] != names[k]
    ensures names[i] in FilesOf(names, segs) && FilesOf(names, segs)[names[i]] == FileOf(segs[i])
  {
    hide FileOf, FilesOf;
    var n := |names| - 1;
    FilesOfSnoc(names, segs);
    if i < n {
      assert names[..n][i] == names[i] && segs[..n][i] == segs[i] && names[i] != names[n];
      FilesOfAt(names[..n], segs[..n], i);
    }
  }

  lemma FilesOfSnoc(names: seq<string>, segs: seq<Seg>)
    requires |names| == |segs| > 0 && (forall j :: 0 <= j < |segs| ==> segs[j].head <= |segs[j].blocks|)
    ensures var n := |names| - 1; FilesOf(names, segs) == FilesOf(names[..n], segs[..n])[names[n] := FileOf(segs[n])]
  {
    hide FileOf;
  }

  lemma FilesOnDisk(q: Q) returns (files: map<string, Bytes>)
    requires q.Consistent()
    ensures OnDisk(files, q)
    ensures forall k :: k in files ==> Parse(k).Some?
  {
    hide Parse, FileOf, Body, FilesOf;
    forall i | 0 <= i < |q.segs| ensures q.segs[i].WellFormed() {
      assert Fits(q.segs[i], q.maxSegmentSize);
    }
    files := FilesOf(q.names, q.segs);
    forall i | 0 <= i < |q.names| ensures q.names[i] in files && files[q.names[i]] == FileOf(q.segs[i]) {
      FilesOfAt(q.names, q.segs, i);
    }
  }

  lemma LoadPossible(files: map<string, Bytes>, maxSegmentSize: int64, maxSize: int64) returns (l: Q)
    requires Loadable(files, maxSegmentSize) && forall k :: k in files ==> Parse(k).Some?
    ensures Loads(files, l) && l.maxSegmentSize == maxSegmentSize && l.maxSize == maxSize
  {
    hide Parse, Less, IsSegmentFile, Fits, Sorted;
    var names := ListingExists(files.Keys);
    forall i | 0 <= i < |names| ensures names[i] in files && IsSegmentFile(files[names[i]]) {
      assert names[i] in names;
    }
    l := Q(names, seq(|names|, i requires 0 <= i < |names| => Meaning(files[names[i]])), maxSegmentSize, maxSize);
  }

  /** Whatever queue is closed can be opened again. */
  lemma ReopenPossible(q: Q) returns (files: map<string, Bytes>, l: Q)
    requires q.Consistent()
    ensures OnDisk(files, q) && Loads(files, l) && |l.names| == |l.segs|
    ensures l.maxSegmentSize == q.maxSegmentSize && l.maxSize == q.maxSize && Reopens(q, l.Opened())
  {
    hide OnDisk, Loads, Loadable, Parse, Reopens, Q.Consistent;
    files := FilesOnDisk(q);
    LeftIsLoadable(files, q);
    l := LoadPossible(files, q.maxSegmentSize, q.maxSize);
    ReopensBy(files, q, l);
  }

  /** A run that reopens its queue with the newer record in front of the older one. */
  lemma ReorderedRunExists() returns (hs: seq<Handoff>, es: seq<Event>)
    ensures Run(hs, es, 40, 1000) && |es| > 0 && es[|es| - 1] == Reopen
    ensures var a, b := Marshal(0, ZeroPayload()), Marshal(1, ZeroPayload());
            a != b && hs[|es| - 1].q.Pending() == [a, b] && hs[|es|].q.Pending() == [b, a]
  {
    hide Step, Format, Marshal, ZeroPayload, Run, OnDisk, Loads, Reopens, PendingOf, Proper;
    var a, b := Marshal(0, ZeroPayload()), Marshal(1, ZeroPayload());
    FreshStart();
    var hs1, es1 := ReachId(9);
    RunShape(hs1, es1, 40, 1000);
    var k := WriteRolls(hs1[|es1|], 9, a, 1, ZeroPayload());
    RunExtend(hs1, es1, 40, 1000, Write(1, ZeroPayload()), k);
    var hs2, es2 := hs1 + [k], es1 + [Write(1, ZeroPayload())];
    RunConserves(hs2, es2, 40, 1000, |es2|);
    ProperConsistent(k);
    var files, l := ReopenPossible(k.q);
    ReopenCanReorder(files, k.q, l, a, b);
    var r := ReopenStep(k, l.Opened());
    RunExtend(hs2, es2, 40, 1000, Reopen, r);
    hs, es := hs2 + [r], es2 + [Reopen];
  }

  /** A record too long for any segment is refused, and leaves an empty segment behind. */
  lemma WriteRefused(h: Handoff, shard: uint64, payload: Bytes) returns (k: Handoff)
    requires |h.q.names| == |h.q.segs| > 0 && !h.detached && h.q.maxSegmentSize == 40 && h.q.maxSize == 1000
    requires |payload| == 40 && h.q.Usage() <= 100 && h.q.Last().Size() <= 40
    ensures Step(h, Write(shard, payload), k) && k == h.(q := h.q.AddSegment())
  {
    hide Body, Format, MaxId, PutUint64, UsageOf;
    SizeAtLeast(h.q.Last());
    k := h.(q := h.q.AddSegment());
  }

  lemma SizeAtLeast(s: Seg)
    ensures s.Size() >= FOOTER
  {
  }

  function LongPayload(): (p: Bytes)
    ensures |p| == 40
  {
    seq(40, i => 0)
  }

  /** Ids 9, 10 and 11, the last two empty. */
  ghost predicate TwoRefused(h: Handoff, b: Bytes) {
    && h.q == Q([Format(9), Format(10), Format(11)], [Seg([b], 0, 16), Empty, Empty], 40, 1000)
    && h.inflight.None? && !h.detached
  }

  lemma RefusedTwice(h: Handoff, b: Bytes) returns (k: Handoff, m: Handoff)
    requires OneRecord(h, 9, b) && |b| == 16
    ensures Step(h, Write(0, LongPayload()), k) && Step(k, Write(0, LongPayload()), m) && TwoRefused(m, b)
  {
    hide Body, Format, MaxId, UsageOf, LongPayload, Step;
    var s := Seg([b], 0, 16);
    EmptySize();
    AppendSize(Seg([], 0, 16), b);
    assert [] + [b] == [b];
    assert Seg([], 0, 16).Size() == FOOTER by { EmptyBody(); }
    UsageSingle(s);
    k := WriteRefused(h, 0, LongPayload());
    ConsecutiveTwo();
    MaxOfConsecutive([Format(9)], 9);
    assert k.q.names == [Format(9), Format(10)] && k.q.segs == [s] + [Empty];
    UsageConcat([s], [Empty]);
    UsageSingle(Empty);
    m := WriteRefused(k, 0, LongPayload());
    MaxOfConsecutive([Format(9), Format(10)], 9);
    assert m.q.names == [Format(9), Format(10), Format(11)] && m.q.segs == [s, Empty, Empty];
  }

  lemma ConsecutiveTwo()
    ensures Consecutive([Format(9)], 9) && Consecutive([Format(9), Format(10)], 9)
  {
    hide Format;
  }

  lemma TenElevenNine()
    ensures FirstTwo([Format(9), Format(10), Format(11)], 1, 2)
  {
    hide Parse;
    assert Format(1) == ['1'] && Format(9) == ['9'];
    assert Format(10) == ['1', '0'] && Format(11) == ['1', '1'];
    assert Format(10)[1..] == ['0'] && Format(11)[1..] == ['1'];
  }

  /** A reopening strands a queue whose head record was there to be sent. */
  lemma ReopenStrandsRunExists() returns (hs: seq<Handoff>, es: seq<Event>)
    ensures Run(hs, es, 40, 1000) && |es| > 0 && es[|es| - 1] == Reopen
    ensures var h := hs[|es| - 1];
            |h.q.segs| > 0 && !Stuck(h) && h.q.Current() == (Marshal(0, ZeroPayload()), NoError)
    ensures Stuck(hs[|es|]) && multiset(hs[|es|].q.Pending()) == multiset{Marshal(0, ZeroPayload())}
  {
    hide Step, Format, Marshal, ZeroPayload, LongPayload, Run, OnDisk, Loads, Reopens, PendingOf, Proper, FirstTwo;
    var b, w := Marshal(0, ZeroPayload()), Write(0, LongPayload());
    FreshStart();
    var hs1, es1 := ReachId(9);
    RunShape(hs1, es1, 40, 1000);
    var h, k := RefusedTwice(hs1[|es1|], b);
    RunExtend(hs1, es1, 40, 1000, w, h);
    RunExtend(hs1 + [h], es1 + [w], 40, 1000, w, k);
    var hs2, es2 := hs1 + [h] + [k], es1 + [w] + [w];
    RunConserves(hs2, es2, 40, 1000, |es2|);
    ProperConsistent(k);
    var files, l := ReopenPossible(k.q);
    var m := ReopenStep(k, l.Opened());
    RunExtend(hs2, es2, 40, 1000, Reopen, m);
    hs, es := hs2 + [m], es2 + [Reopen];
    TenElevenNine();
    assert Strands(k, Reopen);
    StrandsExact(k, Reopen, m);
    ProperQueue(k);
    ReopenPermutes(k.q, m.q);
    OneThenEmpty(k.q.segs, b);
  }

  lemma ProperQueue(h: Handoff)
    requires Proper(h)
    ensures h.q.WellFormed() && AllOk(h.q.segs, h.q.maxSegmentSize)
  {
  }

  lemma OneThenEmpty(segs: seq<Seg>, b: Bytes)
    requires segs == [Seg([b], 0, 16), Empty, Empty]
    ensures PendingOf(segs) == [b]
  {
    hide PendingOf;
    assert segs == [segs[0]] + ([Empty] + [Empty]);
    PendingConcat([segs[0]], [Empty] + [Empty]);
    PendingConcat([Empty], [Empty]);
    PendingSingle(segs[0]);
    PendingSingle(Empty);
  }

  lemma ReopenStep(h: Handoff, r: Q) returns (k: Handoff)
    requires |h.q.names| == |h.q.segs| > 0 && h.inflight.None? && Reopens(h.q, r)
    ensures Step(h, Reopen, k) && k.q == r
  {
    hide Reopens;
    k := h.(q := r, detached := false);
  }

  lemma ProperConsistent(h: Handoff)
    requires Proper(h)
    ensures h.q.Consistent()
  {
  }

  /** Ids 9 and 10 together: reopening puts the newer record in front of the older one. */
  lemma ReopenCanReorder(files: map<string, Bytes>, q: Q, l: Q, a: Bytes, b: Bytes)
    requires q.Consistent() && q.names == [Format(9), Format(10)]
    requires q.segs == [Seg([a], 0, |a|), Seg([b], 0, |b|)]
    requires OnDisk(files, q) && Loads(files, l)
    ensures q.Pending() == [a, b]
    ensures l.names == [Format(10), Format(9)] && l.segs == [Seg([b], 0, |b|), Seg([a], 0, |a|)]
    ensures l.Opened() == l && l.Pending() == [b, a]
  {
    hide Parse, Format, Body, Less, Sorted, OnDisk, Loads;
    ReorderedNames(files, q, l);
    LoadedFrom(files, q, l, 0, 1);
    LoadedFrom(files, q, l, 1, 0);
    TwoPending(q.segs, a, b);
    TwoPending(l.segs, b, a);
  }

  lemma ReorderedNames(files: map<string, Bytes>, q: Q, l: Q)
    requires q.names == [Format(9), Format(10)] && OnDisk(files, q) && Loads(files, l)
    ensures l.names == [Format(10), Format(9)] && |l.segs| == 2
  {
    hide Parse, Format, Body, Less, FileOf;
    NineAfterTen();
    ListingUnique(l.names, [Format(10), Format(9)], {Format(9), Format(10)});
  }

  lemma NineAfterTen()
    ensures Less(Format(10), Format(9))
  {
    LengthStep(9);
  }

  lemma TwoPending(segs: seq<Seg>, a: Bytes, b: Bytes)
    requires segs == [Seg([a], 0, |a|), Seg([b], 0, |b|)]
    ensures PendingOf(segs) == [a, b]
  {
    PendingConcat([segs[0]], [segs[1]]);
    PendingSingle(segs[0]);
    PendingSingle(segs[1]);
    assert segs == [segs[0]] + [segs[1]];
  }

  lemma LoadedFrom(files: map<string, Bytes>, q: Q, l: Q, i: nat, j: nat)
    requires q.Consistent() && OnDisk(files, q) && Loads(files, l)
    requires i < |q.names| && j < |l.names| && q.names[i] == l.names[j] && q.segs[i].Synced()
    ensures l.segs[j] == q.segs[i]
  {
    hide Body, Parse, Sorted;
    MeaningOfFile(q.segs[i]);
  }
}
