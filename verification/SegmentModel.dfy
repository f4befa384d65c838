/**
 A segment file as a value: length-prefixed blocks, then an 8-byte footer with the
 offset of the head block. `Seg` is what the bytes mean; `FileOf` is the bytes.
 */
module SegmentModel {
  import opened Bytes

  const FOOTER: nat := 8

  datatype Err =
    NoError | EOF | NotOpen | QueueFull | SegmentFull | OutOfRange | BadRead | Invalid

  /** `head` blocks are already consumed; `cur` is the cached size of the head block. */
  datatype Seg = Seg(blocks: seq<Bytes>, head: nat, cur: int) {

    ghost predicate Drained() {
      head == |blocks|
    }

    /**
     What every operation keeps. The cached size can only be off while the head block
     is empty, because 0 also stands for "nothing at the head".
     */
    ghost predicate WellFormed() {
      && head <= |blocks|
      && cur >= 0
      && (head == |blocks| ==> cur == 0)
      && (head < |blocks| && blocks[head] != [] ==> cur == |blocks[head]|)
    }

    ghost predicate Synced() {
      head < |blocks| ==> cur == |blocks[head]|
    }

    ghost function Pending(): seq<Bytes> {
      if head <= |blocks| then blocks[head..] else []
    }

    function Size(): nat {
      |Body(blocks)| + FOOTER
    }

    function Append(b: Bytes): Seg {
      Seg(blocks + [b], head, if cur == 0 then |b| else cur)
    }

    /** `current` re-reads the size of the head block. */
    function Refresh(): Seg {
      if head < |blocks| then this.(cur := |blocks[head]|) else this
    }

    function Advance(): Seg {
      var h := if head < |blocks| then head + 1 else head;
      Seg(blocks, h, if h < |blocks| then |blocks[h]| else 0)
    }
  }

  const Empty: Seg := Seg([], 0, 0)

  function Body(blocks: seq<Bytes>): (f: Bytes) {
    if blocks == [] then []
    else
      var last := blocks[|blocks| - 1];
      Body(blocks[..|blocks| - 1]) + PutUint64(|last|) + last
  }

  function Offset(blocks: seq<Bytes>, k: nat): (o: nat)
    requires k <= |blocks|
  {
    |Body(blocks[..k])|
  }

  function FileOf(s: Seg): (f: Bytes)
    requires s.head <= |s.blocks|
    ensures |f| == s.Size()
  {
    Body(s.blocks) + PutUint64(Offset(s.blocks, s.head))
  }

  lemma BodySnoc(blocks: seq<Bytes>, b: Bytes)
    ensures Body(blocks + [b]) == Body(blocks) + PutUint64(|b|) + b
  {
    assert (blocks + [b])[..|blocks|] == blocks;
  }

  /** The first `k` blocks are a prefix of the file, and block `k` starts right after them. */
  lemma {:induction false} BlockAt(blocks: seq<Bytes>, k: nat)
    requires k <= |blocks|
    ensures Offset(blocks, k) <= |Body(blocks)|
    ensures Body(blocks[..k]) == Body(blocks)[..Offset(blocks, k)]
    ensures k == |blocks| ==> Offset(blocks, k) == |Body(blocks)|
    ensures k < |blocks| ==>
              var o, n := Offset(blocks, k), |blocks[k]|;
              && o + 8 + n == Offset(blocks, k + 1) <= |Body(blocks)|
              && Body(blocks)[o..o + 8] == PutUint64(n)
              && Body(blocks)[o + 8..o + 8 + n] == blocks[k]
    decreases |blocks|
  {
    hide PutUint64, Uint64;
    if k == |blocks| {
      assert blocks[..k] == blocks;
    } else {
      var front, last := blocks[..|blocks| - 1], blocks[|blocks| - 1];
      BlockAt(front, k);
      assert front[..k] == blocks[..k];
      if k < |front| {
        assert front[..k + 1] == blocks[..k + 1];
      } else {
        assert blocks[..k + 1] == blocks;
        assert blocks[..k] == front;
      }
    }
  }

  lemma OffsetsIncrease(blocks: seq<Bytes>, i: nat, j: nat)
    requires i < j <= |blocks|
    ensures Offset(blocks, i) < Offset(blocks, j)
    decreases j
  {
    BlockAt(blocks, j - 1);
    if i < j - 1 {
      OffsetsIncrease(blocks, i, j - 1);
    }
  }

  /** A block list can be read off its bytes from the left, one length at a time. */
  lemma {:induction false} SameBlocksUpTo(a: seq<Bytes>, b: seq<Bytes>, k: nat)
    requires k <= |a| && k <= |b|
    requires Body(a) == Body(b) && |Body(a)| < TWO_64
    ensures a[..k] == b[..k]
  {
    if k > 0 {
      SameBlocksUpTo(a, b, k - 1);
      SameBlock(a, b, k - 1);
      assert a[..k] == a[..k - 1] + [a[k - 1]] && b[..k] == b[..k - 1] + [b[k - 1]];
    }
  }

  lemma SameBlock(a: seq<Bytes>, b: seq<Bytes>, k: nat)
    requires k < |a| && k < |b| && a[..k] == b[..k]
    requires Body(a) == Body(b) && |Body(a)| < TWO_64
    ensures a[k] == b[k]
  {
    hide Body, PutUint64, Uint64;
    BlockAt(a, k);
    BlockAt(b, k);
    var m, n := |a[k]|, |b[k]|;
    assert PutUint64(m) == PutUint64(n);
    Uint64RoundTrip(m);
    Uint64RoundTrip(n);
  }

  lemma SameBody(a: seq<Bytes>, b: seq<Bytes>)
    requires |a| <= |b|
    requires Body(a) == Body(b) && |Body(a)| < TWO_64
    ensures a == b
  {
    SameBlocksUpTo(a, b, |a|);
    assert a == a[..|a|] && b == b[..|b|];
    if |a| < |b| {
      OffsetsIncrease(b, |a|, |b|);
    }
  }

  lemma FooterOf(s: Seg)
    requires s.head <= |s.blocks| && s.Size() < TWO_64
    ensures |FileOf(s)| == s.Size()
    ensures FileOf(s)[|FileOf(s)| - FOOTER..] == PutUint64(Offset(s.blocks, s.head))
    ensures Uint64(FileOf(s)[|FileOf(s)| - FOOTER..]) == Offset(s.blocks, s.head)
  {
    hide Body, PutUint64, Uint64;
    BlockAt(s.blocks, s.head);
    Uint64RoundTrip(Offset(s.blocks, s.head));
  }

  /** The bytes of a file determine the blocks and the head: no two segments share a file. */
  lemma FileDeterminesSegment(s: Seg, t: Seg)
    requires s.head <= |s.blocks| && t.head <= |t.blocks|
    requires s.Size() < TWO_64 && FileOf(s) == FileOf(t)
    ensures s.blocks == t.blocks && s.head == t.head
  {
    hide Body, PutUint64, Uint64;
    FooterOf(s);
    FooterOf(t);
    assert |Body(s.blocks)| == |Body(t.blocks)|;
    assert Body(s.blocks) == FileOf(s)[..|Body(s.blocks)|] == Body(t.blocks);
    if |s.blocks| <= |t.blocks| {
      SameBody(s.blocks, t.blocks);
    } else {
      SameBody(t.blocks, s.blocks);
    }
    if s.head < t.head {
      OffsetsIncrease(s.blocks, s.head, t.head);
    } else if t.head < s.head {
      OffsetsIncrease(s.blocks, t.head, s.head);
    }
  }

  ghost predicate Holds(f: Bytes, s: Seg) {
    s.WellFormed() && s.Size() < TWO_63 + FOOTER && f == FileOf(s)
  }

  ghost predicate IsSegmentFile(f: Bytes) {
    exists s :: Holds(f, s)
  }

  /** The one segment, with its cached size right, that the bytes `f` stand for. */
  ghost function Meaning(f: Bytes): (s: Seg)
    requires IsSegmentFile(f)
    ensures Holds(f, s) && s.Synced()
  {
    var s :| Holds(f, s);
    s.Refresh()
  }

  lemma MeaningOfFile(s: Seg)
    requires s.WellFormed() && Holds(FileOf(s), s)
    ensures IsSegmentFile(FileOf(s)) && Meaning(FileOf(s)) == s.Refresh()
  {
    FileDeterminesSegment(s, Meaning(FileOf(s)));
  }

  /** Reading at the offset stored in the footer finds the head block. */
  lemma HeadBlock(f: Bytes, s: Seg)
    requires Holds(f, s)
    ensures |f| == s.Size() && |f| >= FOOTER
    ensures Uint64(f[|f| - FOOTER..]) == Offset(s.blocks, s.head) <= |f| - FOOTER
    ensures Offset(s.blocks, s.head) == |f| - FOOTER <==> s.head == |s.blocks|
    ensures s.head < |s.blocks| ==>
              var o, n := Offset(s.blocks, s.head), |s.blocks[s.head]|;
              && o + 8 + n == Offset(s.blocks, s.head + 1) <= |f| - FOOTER
              && Uint64(f[o..o + 8]) == n
              && f[o + 8..o + 8 + n] == s.blocks[s.head]
  {
    hide Body, PutUint64, Uint64;
    FooterOf(s);
    BlockAt(s.blocks, s.head);
    if s.head < |s.blocks| {
      var o, n := Offset(s.blocks, s.head), |s.blocks[s.head]|;
      Uint64RoundTrip(n);
      SliceOfPrefix(Body(s.blocks), f, o, o + 8);
      SliceOfPrefix(Body(s.blocks), f, o + 8, o + 8 + n);
    }
  }

  lemma SliceOfPrefix(a: Bytes, f: Bytes, i: nat, j: nat)
    requires a <= f && i <= j <= |a|
    ensures f[i..j] == a[i..j]
  {
  }

  /**
   Appending `b` leaves the cached size right in every case but one: an empty record
   waits at the head and `b` is not empty.
   */
  lemma AppendKeepsSynced(s: Seg, b: Bytes)
    requires s.WellFormed() && s.Synced()
    ensures s.Append(b).WellFormed()
    ensures s.Append(b).Synced() <==> !(s.head < |s.blocks| && s.blocks[s.head] == [] && b != [])
  {
  }

  lemma AdvanceKeepsWellFormed(s: Seg)
    requires s.WellFormed()
    ensures s.Advance().WellFormed() && s.Advance().Synced()
    ensures s.Advance().Pending() == if s.Drained() then [] else s.Pending()[1..]
  {
  }
}
