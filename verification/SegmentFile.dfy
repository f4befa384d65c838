/**
 The segment of a hinted-handoff queue: a handle on one file of a directory, with
 the position and size bookkeeping of services/hh/queue.go. The file is only ever
 touched through a cursor, as in the original.
 */
module SegmentFile {
  import opened Bytes
  import opened SegmentModel
  import opened Directory

  function WriteAt(f: Bytes, at: nat, b: Bytes): (g: Bytes)
    requires at <= |f|
  {
    f[..at] + b + if at + |b| <= |f| then f[at + |b|..] else []
  }

  function WithBlock(f: Bytes, b: Bytes, pos: nat): (g: Bytes)
    requires |f| >= FOOTER
  {
    f[..|f| - FOOTER] + PutUint64(|b|) + b + PutUint64(pos)
  }

  function WithFooter(f: Bytes, pos: nat): (g: Bytes)
    requires |f| >= FOOTER
  {
    f[..|f| - FOOTER] + PutUint64(pos)
  }

  function AsInt64(x: nat): (y: int)
    requires x < TWO_64
  {
    if x < TWO_63 then x else x - TWO_64
  }

  /** `open` gets through: the file is new, or its footer is a position that can be sought. */
  ghost predicate Opens(f: Bytes) {
    f == [] || (|f| >= FOOTER && AsInt64(Uint64(f[|f| - FOOTER..])) >= 0)
  }

  class Segment {
    const dir: Dir
    const path: string

    var isOpen: bool
    var cursor: nat
    var size: int
    var pos: int
    var currentSize: int
    const maxSize: int64

    ghost var blocks: seq<Bytes>
    ghost var head: nat

    ghost function View(): (s: Seg)
      reads this
    {
      Seg(blocks, head, currentSize)
    }

    /** The fields are those of the segment `v`, whatever the file holds. */
    ghost predicate Shows(v: Seg)
      reads this
    {
      && v == View() && v.WellFormed() && v.Size() < TWO_63 + FOOTER
      && size == v.Size()
      && pos == Offset(v.blocks, v.head)
    }

    /** The fields agree with the file: exactly the blocks, then the footer. */
    ghost predicate Valid()
      reads this, dir
    {
      && Shows(View())
      && path in dir.files
      && dir.files[path] == FileOf(View())
    }

    /** The bookkeeping that `open` takes from the bytes `f`, whatever they are. */
    ghost predicate Reads(f: Bytes)
      requires |f| >= FOOTER
      reads this
    {
      && size == |f| && pos == AsInt64(Uint64(f[|f| - FOOTER..])) >= 0
      && currentSize == if pos < |f| - FOOTER then AsInt64(Uint64(f[pos..pos + 8])) else 0
    }

    /** The cached size after reading at `pos` in `f`; past the end the read fails and `was` stays. */
    ghost predicate AtPosition(f: Bytes, was: int, err: Err)
      reads this
    {
      && pos >= 0
      && (pos + 8 > |f| ==> err == (if pos >= |f| then EOF else BadRead) && currentSize == was)
      && (pos + 8 <= |f| ==> err == (if pos == size - FOOTER then EOF else NoError))
      && (pos + 8 <= |f| ==> currentSize == if pos == size - FOOTER then 0 else AsInt64(Uint64(f[pos..pos + 8])))
    }

    constructor Handle(dir: Dir, path: string, maxSize: int64)
      ensures this.dir == dir && this.path == path && this.maxSize == maxSize
      ensures isOpen && cursor == 0 && pos == 0 && currentSize == 0
      ensures blocks == [] && head == 0
      ensures size == if path in dir.files then |dir.files[path]| else 0
    {
      this.dir, this.path, this.maxSize := dir, path, maxSize;
      isOpen, cursor, pos, currentSize := true, 0, 0, 0;
      size := if path in dir.files then |dir.files[path]| else 0;
      blocks, head := [], 0;
    }

    method SeekEnd(back: nat) returns (err: Err)
      requires path in dir.files
      modifies this`cursor
      ensures err == if back <= |dir.files[path]| then NoError else Invalid
      ensures err == NoError ==> cursor == |dir.files[path]| - back
      ensures err != NoError ==> cursor == old(cursor)
    {
      if |dir.files[path]| < back {
        return Invalid;
      }
      cursor := |dir.files[path]| - back;
      return NoError;
    }

    method SeekToCurrent() returns (err: Err)
      modifies this`cursor
      ensures err == if isOpen && pos >= 0 then NoError else Invalid
      ensures err == NoError ==> cursor == pos
    {
      if !isOpen || pos < 0 {
        return Invalid;
      }
      cursor := pos;
      return NoError;
    }

    method WriteBytes(b: Bytes)
      requires path in dir.files && cursor <= |dir.files[path]|
      modifies this`cursor, dir`files
      ensures dir.files == old(dir.files)[path := WriteAt(old(dir.files[path]), old(cursor), b)]
      ensures cursor == old(cursor) + |b|
    {
      dir.files := dir.files[path := WriteAt(dir.files[path], cursor, b)];
      cursor := cursor + |b|;
    }

    /** Reads `n` bytes at the cursor, or says why it could not. */
    method ReadBytes(n: nat) returns (b: Bytes, err: Err)
      requires path in dir.files
      modifies this`cursor
      ensures var f := dir.files[path];
              && (err == NoError <==> n == 0 || old(cursor) + n <= |f|)
              && (err == EOF <==> n > 0 && old(cursor) >= |f|)
              && (err == NoError || err == EOF || err == BadRead)
              && (err == NoError && n > 0 ==> b == f[old(cursor)..old(cursor) + n])
              && (err == NoError ==> |b| == n && cursor == old(cursor) + n)
    {
      var f := dir.files[path];
      if n == 0 {
        return [], NoError;
      }
      if cursor >= |f| {
        return [], EOF;
      }
      if cursor + n > |f| {
        cursor := |f|;
        return [], BadRead;
      }
      b := f[cursor..cursor + n];
      cursor := cursor + n;
      return b, NoError;
    }

    method ReadUint64() returns (x: nat, err: Err)
      requires path in dir.files
      modifies this`cursor
      ensures var f := dir.files[path];
              && (err == NoError <==> old(cursor) + 8 <= |f|)
              && (err == EOF <==> old(cursor) >= |f|)
              && (err == NoError || err == EOF || err == BadRead)
              && (err == NoError ==> x == Uint64(f[old(cursor)..old(cursor) + 8]))
              && (err == NoError ==> cursor == old(cursor) + 8)
      ensures x < TWO_64
    {
      var b;
      b, err := ReadBytes(8);
      if err != NoError {
        return 0, err;
      }
      return Uint64(b), NoError;
    }

    /**
     `newSegment`: creates the file with a zero footer, or reads back an existing one.
     Whatever segment the bytes stand for is the one that is rebuilt.
     */
    static method New(dir: Dir, path: string, maxSize: int64) returns (s: Segment, err: Err)
      modifies dir`files
      ensures fresh(s) && s.dir == dir && s.path == path && s.maxSize == maxSize && s.isOpen
      ensures path !in old(dir.files) || old(dir.files[path]) == [] ==>
                && err == NoError && s.Valid() && s.View() == Empty
                && dir.files == old(dir.files)[path := FileOf(Empty)]
      ensures path in old(dir.files) && old(dir.files[path]) != [] ==>
                && dir.files == old(dir.files)
                && (err == NoError <==> Opens(old(dir.files[path])))
                && (err == NoError ==> s.Reads(old(dir.files[path])))
      ensures path in old(dir.files) && IsSegmentFile(old(dir.files[path])) ==>
                && err == NoError && s.Valid() && s.View() == Meaning(old(dir.files[path]))
    {
      s := new Segment.Handle(dir, path, maxSize);
      if s.size == 0 {
        dir.files := dir.files[path := []];
        s.WriteBytes(PutUint64(0));
        s.size := FOOTER;
        assert dir.files[path] == FileOf(Empty);
        return s, NoError;
      }
      err := s.OpenExisting();
    }

    method OpenExisting() returns (err: Err)
      requires isOpen && path in dir.files && size == |dir.files[path]| > 0 && currentSize == 0
      modifies this
      ensures isOpen
      ensures err == NoError <==> Opens(dir.files[path])
      ensures err == NoError ==> Reads(dir.files[path])
      ensures IsSegmentFile(dir.files[path]) ==>
                err == NoError && Valid() && View() == Meaning(dir.files[path])
    {
      hide Body, Offset, FileOf, PutUint64, Uint64;
      ghost var f, v := dir.files[path], Empty;
      if IsSegmentFile(f) {
        v := Meaning(f);
        HeadBlock(f, v);
      }
      err := ReadFooter();
      if err != NoError {
        return;
      }
      err := SeekToCurrent();
      if err != NoError {
        return;
      }
      if pos < size - FOOTER {
        var x;
        x, err := ReadUint64();
        if err != NoError {
          return;
        }
        currentSize := AsInt64(x);
      }
      blocks, head := v.blocks, v.head;
      assert IsSegmentFile(f) ==> pos == Offset(v.blocks, v.head) && currentSize == v.cur;
    }

    method ReadFooter() returns (err: Err)
      requires path in dir.files
      modifies this`cursor, this`pos
      ensures var f := dir.files[path];
              && err == (if |f| < FOOTER then Invalid else NoError)
              && (err == NoError ==> pos == AsInt64(Uint64(f[|f| - FOOTER..])))
    {
      err := SeekEnd(FOOTER);
      if err != NoError {
        return;
      }
      ghost var f := dir.files[path];
      assert f[|f| - FOOTER..|f| - FOOTER + 8] == f[|f| - FOOTER..];
      var x;
      x, err := ReadUint64();
      pos := AsInt64(x);
    }

    /** Overwrites the footer with the block `b` and writes the same footer after it. */
    method WriteBlock(b: Bytes)
      requires path in dir.files && |dir.files[path]| >= FOOTER && 0 <= pos < TWO_64
      modifies this`cursor, dir`files
      ensures dir.files == old(dir.files)[path := WithBlock(old(dir.files[path]), b, pos)]
    {
      var err := SeekEnd(FOOTER);
      WriteBytes(PutUint64(|b|));
      WriteBytes(b);
      WriteBytes(PutUint64(pos));
      assert dir.files[path] == WithBlock(old(dir.files[path]), b, pos);
    }

    /** `append`: one more block at the end, or nothing when the segment is full. */
    method Append(b: Bytes) returns (err: Err)
      requires isOpen ==> Valid()
      modifies this, dir`files
      ensures err == if !isOpen then NotOpen else if old(size) + |b| > maxSize then SegmentFull else NoError
      ensures isOpen == old(isOpen)
      ensures !isOpen ==> unchanged(this) && dir.files == old(dir.files)
      ensures isOpen ==> Valid() && View() == if err == NoError then old(View()).Append(b) else old(View())
      ensures isOpen ==> dir.files == old(dir.files)[path := FileOf(View())]
    {
      hide Body, FileOf, PutUint64, Uint64, WithBlock;
      if !isOpen {
        return NotOpen;
      }
      if size + |b| > maxSize {
        return SegmentFull;
      }
      AppendedFile(View(), b);
      WriteBlock(b);
      if currentSize == 0 {
        currentSize := |b|;
      }
      size := size + |b| + 8;
      blocks := blocks + [b];
      return NoError;
    }

    /** `current`: the head block, or end of file when everything was consumed. */
    method Current() returns (b: Bytes, err: Err)
      requires Valid()
      modifies this`cursor, this`currentSize
      ensures Valid()
      ensures View() == if err == NoError || err == OutOfRange then old(View()).Refresh() else old(View())
      ensures err == if old(View()).Drained() then EOF else if !isOpen then Invalid
                     else if |blocks[head]| > maxSize then OutOfRange else NoError
      ensures b == if err == NoError then blocks[head] else []
    {
      hide Body, Offset, PutUint64, Uint64;
      HeadBlock(dir.files[path], View());
      if pos == size - 8 {
        return [], EOF;
      }
      err := SeekToCurrent();
      if err != NoError {
        return [], err;
      }
      var sz;
      sz, err := ReadUint64();
      assert err == NoError && sz == |blocks[head]|;
      currentSize := AsInt64(sz);
      if currentSize > maxSize {
        return [], OutOfRange;
      }
      b, err := ReadBytes(sz);
    }

    /**
     `advance`: moves the head past the block it is on. Right only if the cached size
     is; otherwise the footer ends up at an offset that is not the next block.
     */
    method Advance() returns (err: Err)
      requires Valid()
      modifies this, dir`files
      ensures isOpen == old(isOpen)
      ensures !isOpen ==> err == NotOpen && Valid() && View() == old(View()) && dir.files == old(dir.files)
      ensures isOpen && old(View().Synced()) ==>
                && Valid() && View() == old(View()).Advance()
                && err == (if View().Drained() then EOF else NoError)
                && dir.files == old(dir.files)[path := FileOf(View())]
      ensures isOpen && !old(View().Synced()) ==>
                && pos == old(pos + currentSize + 8) != old(Offset(blocks, head + 1))
                && dir.files == old(dir.files)[path := WithFooter(old(dir.files[path]), pos)]
                && AtPosition(dir.files[path], old(currentSize), err)
    {
      hide Body, Offset, FileOf, PutUint64, Uint64;
      if !isOpen {
        return NotOpen;
      }
      HeadBlock(dir.files[path], View());
      if pos == size - FOOTER {
        currentSize := 0;
        return EOF;
      }
      err := MoveHead();
    }

    method MoveHead() returns (err: Err)
      requires Valid() && isOpen && !View().Drained()
      modifies this, dir`files
      ensures isOpen
      ensures pos == old(pos + currentSize + 8)
      ensures dir.files == old(dir.files)[path := WithFooter(old(dir.files[path]), pos)]
      ensures AtPosition(dir.files[path], old(currentSize), err)
      ensures old(View().Synced()) ==>
                && Valid() && View() == old(View()).Advance()
                && err == (if View().Drained() then EOF else NoError)
                && dir.files == old(dir.files)[path := FileOf(View())]
    {
      hide Body, Offset, FileOf, PutUint64, Uint64;
      ghost var v := View();
      if v.Synced() {
        AdvancedFile(v);
      }
      WriteFooter(pos + currentSize + 8);
      err := ReadCurrentSize();
      if v.Synced() {
        head := head + 1;
        assert View() == v.Advance();
      }
    }

    method WriteFooter(next: nat)
      requires path in dir.files && |dir.files[path]| >= FOOTER
      modifies this`cursor, this`pos, dir`files
      ensures dir.files == old(dir.files)[path := WithFooter(old(dir.files[path]), next)]
      ensures pos == next
    {
      var err := SeekEnd(FOOTER);
      WriteBytes(PutUint64(next));
      pos := next;
      assert dir.files[path] == WithFooter(old(dir.files[path]), next);
    }

    /** The rest of `advance`: caches the size found at `pos`, 0 when that is the footer. */
    method ReadCurrentSize() returns (err: Err)
      requires isOpen && pos >= 0 && path in dir.files
      modifies this`cursor, this`currentSize
      ensures AtPosition(dir.files[path], old(currentSize), err)
    {
      err := SeekToCurrent();
      var sz;
      sz, err := ReadUint64();
      if err != NoError {
        return err;
      }
      currentSize := AsInt64(sz);
      if pos == size - FOOTER {
        currentSize := 0;
        return EOF;
      }
      return NoError;
    }

    method Close()
      modifies this`isOpen
      ensures !isOpen
    {
      isOpen := false;
    }
  }

  lemma AppendedFile(s: Seg, b: Bytes)
    requires s.WellFormed() && Holds(FileOf(s), s)
    ensures s.Append(b).Size() == s.Size() + |b| + 8 && s.Append(b).WellFormed()
    ensures 0 <= Offset(s.blocks, s.head) < TWO_63
    ensures Offset(s.Append(b).blocks, s.head) == Offset(s.blocks, s.head)
    ensures FileOf(s.Append(b)) == WithBlock(FileOf(s), b, Offset(s.blocks, s.head))
  {
    hide Body, PutUint64, Uint64;
    HeadBlock(FileOf(s), s);
    BodySnoc(s.blocks, b);
    assert (s.blocks + [b])[..s.head] == s.blocks[..s.head];
  }

  /** With the right cached size, the new footer makes the file that of the next state. */
  lemma AdvancedFile(s: Seg)
    requires s.WellFormed() && Holds(FileOf(s), s) && s.Synced() && s.head < |s.blocks|
    ensures var t := s.Advance();
            var o, f := Offset(s.blocks, t.head), FileOf(t);
            && Holds(f, t)
            && Offset(s.blocks, s.head) + s.cur + 8 == o
            && o + 8 <= |f| == s.Size()
            && f == WithFooter(FileOf(s), o)
            && (o == |f| - FOOTER <==> t.Drained())
            && (!t.Drained() ==> AsInt64(Uint64(f[o..o + 8])) == t.cur)
  {
    hide Body, PutUint64, Uint64;
    HeadBlock(FileOf(s), s);
    HeadBlock(FileOf(s.Advance()), s.Advance());
  }
}
