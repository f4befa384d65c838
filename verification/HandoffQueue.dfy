/**
 The queue of services/hh/queue.go over the segment files of one directory. Every
 method is tied to the value model: `model` mirrors the open segments, and the
 directory holds exactly the files of `model`.
 */
module HandoffQueue {
  import opened Bytes
  import opened Directory
  import opened QueueModel
  import opened SegmentFile
  import opened SegmentModel
  import opened SegmentNames

  /** The numeric names in the directory are those of `q`, each with its segment's bytes. */
  ghost predicate OnDisk(files: map<string, Bytes>, q: Q) {
    && |q.names| == |q.segs|
    && (forall k :: k in files && Parse(k).Some? <==> k in q.names)
    && (forall i :: 0 <= i < |q.names| ==>
          q.names[i] in files && q.segs[i].WellFormed() && files[q.names[i]] == FileOf(q.segs[i]))
  }

  lemma OnDiskAdded(files: map<string, Bytes>, q: Q, k: string)
    requires OnDisk(files, q) && Parse(k).Some? && k !in q.names
    ensures OnDisk(files[k := FileOf(Empty)], q.(names := q.names + [k], segs := q.segs + [Empty]))
  {
  }

  lemma OnDiskWritten(files: map<string, Bytes>, q: Q, i: nat, s: Seg)
    requires OnDisk(files, q) && DistinctIds(q.names) && i < |q.names| && s.WellFormed()
    ensures OnDisk(files[q.names[i] := FileOf(s)], q.(segs := q.segs[i := s]))
  {
  }

  lemma OnDiskTrimmed(files: map<string, Bytes>, q: Q)
    requires OnDisk(files, q) && DistinctIds(q.names) && |q.segs| > 1
    ensures OnDisk(files - {q.names[0]}, q.TrimHead())
  {
    forall k ensures k in q.names[1..] <==> k in q.names && k != q.names[0] {
      assert q.names == [q.names[0]] + q.names[1..];
    }
  }

  /** Every numeric file that can be opened at all is new or one that this queue could have written. */
  ghost predicate Sound(files: map<string, Bytes>, maxSegmentSize: int) {
    forall k :: k in files && Parse(k).Some? && Opens(files[k]) ==>
      files[k] == [] || (IsSegmentFile(files[k]) && Fits(Meaning(files[k]), maxSegmentSize))
  }

  ghost predicate AllOpen(files: map<string, Bytes>) {
    forall k :: k in files && Parse(k).Some? ==> Opens(files[k])
  }

  /** Opening gives a new file its footer. */
  ghost function Content(f: Bytes): (g: Bytes) {
    if f == [] then FileOf(Empty) else f
  }

  ghost function Repaired(files: map<string, Bytes>): (r: map<string, Bytes>)
    ensures r.Keys == files.Keys
  {
    map k | k in files :: if Parse(k).Some? then Content(files[k]) else files[k]
  }

  /** Every numeric name is a segment file that this queue could have written. */
  ghost predicate Loadable(files: map<string, Bytes>, maxSegmentSize: int) {
    forall k :: k in files && Parse(k).Some? ==>
      IsSegmentFile(files[k]) && Fits(Meaning(files[k]), maxSegmentSize)
  }

  /** `q` is the numeric part of `names`, in string order, read from the files. */
  ghost predicate LoadsFrom(files: map<string, Bytes>, names: set<string>, q: Q) {
    && |q.names| == |q.segs|
    && Sorted(q.names)
    && (forall k :: k in q.names <==> k in names && Parse(k).Some?)
    && (forall i :: 0 <= i < |q.segs| ==>
          q.names[i] in files && IsSegmentFile(files[q.names[i]]) && q.segs[i] == Meaning(files[q.names[i]]))
  }

  ghost predicate Loads(files: map<string, Bytes>, q: Q) {
    LoadsFrom(files, files.Keys, q)
  }

  /** Closing leaves the files; the queue loaded from them is the one after `Open`. */
  ghost predicate Reopens(q: Q, r: Q) {
    exists files, l ::
      && OnDisk(files, q) && Loads(files, l) && |l.names| == |l.segs|
      && l.maxSegmentSize == q.maxSegmentSize && l.maxSize == q.maxSize
      && r == l.Opened()
  }

  ghost function UpTo(names: seq<string>, i: nat): (r: set<string>)
    requires i <= |names|
  {
    set k | k in names[..i]
  }

  lemma LoadsNone(files: map<string, Bytes>, names: seq<string>, q: Q)
    requires q.names == [] && q.segs == []
    ensures LoadsFrom(files, UpTo(names, 0), q)
  {
  }

  lemma LoadsNext(files: map<string, Bytes>, names: seq<string>, i: nat, q: Q)
    requires i < |names| && Lists(names, files.Keys) && LoadsFrom(files, UpTo(names, i), q)
    requires Parse(names[i]).Some? && names[i] in files && IsSegmentFile(files[names[i]])
    ensures LoadsFrom(files, UpTo(names, i + 1),
                      q.(names := q.names + [names[i]], segs := q.segs + [Meaning(files[names[i]])]))
  {
    hide Parse, Less, IsSegmentFile, Meaning;
    forall j | 0 <= j < |q.names| ensures Less(q.names[j], names[i]) {
      assert q.names[j] in q.names;
      assert q.names[j] in names[..i];
    }
    assert names[..i + 1] == names[..i] + [names[i]];
  }

  lemma LoadsSkips(files: map<string, Bytes>, names: seq<string>, i: nat, q: Q)
    requires i < |names| && LoadsFrom(files, UpTo(names, i), q) && Parse(names[i]).None?
    ensures LoadsFrom(files, UpTo(names, i + 1), q)
  {
    hide Less;
    assert names[..i + 1] == names[..i] + [names[i]];
  }

  lemma LoadsAll(files: map<string, Bytes>, names: seq<string>, q: Q)
    requires Lists(names, files.Keys) && LoadsFrom(files, UpTo(names, |names|), q)
    ensures Loads(files, q)
  {
    hide Less;
    assert names[..|names|] == names;
    assert UpTo(names, |names|) == files.Keys;
  }

  /** A segment file opens. */
  lemma SegmentFileOpens(f: Bytes)
    requires IsSegmentFile(f)
    ensures f != [] && Opens(f)
  {
    hide Body, FileOf, Offset, PutUint64, Uint64;
    HeadBlock(f, Meaning(f));
  }

  lemma NewFileIsEmpty()
    ensures IsSegmentFile(FileOf(Empty)) && Meaning(FileOf(Empty)) == Empty
  {
    EmptySize();
    MeaningOfFile(Empty);
  }

  /** Sound files that all open are, once new ones have their footer, segment files. */
  lemma RepairedLoadable(files: map<string, Bytes>, maxSegmentSize: int)
    requires Sound(files, maxSegmentSize) && AllOpen(files)
    ensures Loadable(Repaired(files), maxSegmentSize)
  {
    hide FileOf, Opens, IsSegmentFile, Parse, Body;
    NewFileIsEmpty();
    EmptySize();
  }

  /** What a queue leaves on disk can be loaded. */
  lemma LeftIsLoadable(files: map<string, Bytes>, q: Q)
    requires q.Consistent() && OnDisk(files, q)
    ensures Loadable(files, q.maxSegmentSize) && Sound(files, q.maxSegmentSize) && AllOpen(files)
    ensures Repaired(files) == files
  {
    forall k | k in files && Parse(k).Some?
      ensures IsSegmentFile(files[k]) && Fits(Meaning(files[k]), q.maxSegmentSize) && Opens(files[k]) && files[k] != []
    {
      LeftFile(files, q, k);
    }
  }

  lemma LeftFile(files: map<string, Bytes>, q: Q, k: string)
    requires q.Consistent() && OnDisk(files, q) && k in files && Parse(k).Some?
    ensures IsSegmentFile(files[k]) && Fits(Meaning(files[k]), q.maxSegmentSize) && Opens(files[k]) && files[k] != []
  {
    hide Parse, Body, FileOf, DistinctIds, Opens;
    assert k in q.names;
    var i :| 0 <= i < |q.names| && q.names[i] == k;
    MeaningOfFile(q.segs[i]);
    SegmentFileOpens(files[k]);
  }

  class Queue {
    const dir: Dir
    const maxSegmentSize: int64
    const maxSize: int64

    var head: Segment?
    var tail: Segment?
    var segments: seq<Segment>

    ghost var model: Q

    ghost predicate Closed()
      reads this
    {
      head == null && tail == null && segments == []
    }

    ghost predicate Handles()
      reads this, segments
    {
      && |segments| == |model.segs| == |model.names|
      && forall i {:trigger segments[i]} :: 0 <= i < |segments| ==> Handle(segments[i], model.names[i], model.segs[i])
    }

    ghost predicate Handle(s: Segment, name: string, v: Seg)
      reads s
    {
      s.dir == dir && s.path == name && s.maxSize == maxSegmentSize && s.isOpen && s.Shows(v)
    }

    /** Segments, model and directory agree; head and tail may still be unset. */
    ghost predicate Mirrored()
      reads this, dir, segments
    {
      && model.Consistent()
      && model.maxSegmentSize == maxSegmentSize && model.maxSize == maxSize
      && Handles()
      && OnDisk(dir.files, model)
    }

    /** Reading works: the head is the first segment. */
    ghost predicate Serving()
      reads this, dir, segments
    {
      Mirrored() && segments != [] && head == segments[0]
    }

    ghost predicate Valid()
      reads this, dir, segments
    {
      Serving() && tail == segments[|segments| - 1]
    }

    /** A purge of the only segment leaves the tail on its closed handle. */
    ghost predicate Detached()
      reads this, dir, segments, tail
    {
      Serving() && tail != null && !tail.isOpen && tail.dir == dir && tail !in segments
    }

    constructor (dir: Dir, maxSegmentSize: int64, maxSize: int64)
      ensures Closed() && this.dir == dir && this.maxSegmentSize == maxSegmentSize && this.maxSize == maxSize
    {
      this.dir, this.maxSegmentSize, this.maxSize := dir, maxSegmentSize, maxSize;
      head, tail, segments := null, null, [];
      model := Q([], [], maxSegmentSize, maxSize);
    }

    method DiskUsage() returns (n: nat)
      requires Serving()
      ensures n == model.Usage()
    {
      hide Body, UsageOf, OnDisk, FileOf, Parse, DistinctIds, AllFit;
      assert forall i {:trigger segments[i]} :: 0 <= i < |segments| ==> segments[i].size == model.segs[i].Size();
      n := 0;
      assert model.segs[..0] == [];
      UsageNone();
      for i := 0 to |segments|
        invariant n == UsageOf(model.segs[..i])
      {
        UsageUpTo(model.segs, i);
        n := n + segments[i].size;
      }
      assert model.segs[..|segments|] == model.segs;
    }

    /** One more than the largest numeric name in the directory. */
    method NextSegmentID() returns (id: nat)
      ensures id > 0
      ensures forall k :: k in dir.files && Parse(k).Some? ==> Parse(k).value < id
      ensures id == 1 || exists k :: k in dir.files && Parse(k) == Some((id - 1) as nat)
    {
      var names := dir.ReadDir();
      var maxID := 0;
      for i := 0 to |names|
        invariant forall j :: 0 <= j < i && Parse(names[j]).Some? ==> Parse(names[j]).value <= maxID
        invariant maxID == 0 || exists j :: 0 <= j < i && Parse(names[j]) == Some(maxID)
      {
        match Parse(names[i]) {
          case None =>
          case Some(n) =>
            if n > maxID {
              maxID := n;
            }
        }
      }
      return maxID + 1;
    }

    method AddSegment() returns (s: Segment)
      requires Mirrored()
      modifies this`segments, this`model, dir`files
      ensures fresh(s) && segments == old(segments) + [s]
      ensures Mirrored() && model == old(model).AddSegment()
    {
      hide Parse, Format, MaxId, OnDisk, FileOf, Body, AllFit, DistinctIds;
      var id := NextSegmentID();
      AddedOnDisk(dir.files, model, id);
      var err;
      s, err := Segment.New(dir, Format(id), maxSegmentSize);
      segments := segments + [s];
      model := model.AddSegment();
    }

    /** `l.tail.append(b)` */
    method AppendToTail(b: Bytes) returns (err: Err)
      requires Valid()
      modifies this`model, dir`files, tail
      ensures Valid()
      ensures err == if old(model).Last().Size() + |b| > maxSegmentSize then SegmentFull else NoError
      ensures model == if err == NoError then old(model).WithLast(old(model).Last().Append(b)) else old(model)
    {
      hide Handle, OnDisk, FileOf, Body, Offset, Q.Consistent, Seg.WellFormed, Segment.Valid, Segment.View;
      ghost var n, q := |segments| - 1, model;
      TailAppendOnDisk(dir.files, q, b);
      TailIsValid();
      err := tail.Append(b);
      if err == NoError {
        model := q.WithLast(q.Last().Append(b));
      }
      HandleOf(tail, model.names[n], model.Last());
    }

    lemma OpenFacts()
      requires Serving()
      ensures head != null && segments != [] && model.segs != []
      ensures model.maxSegmentSize == maxSegmentSize && model.maxSize == maxSize
    {
    }

    lemma TailIsValid()
      requires Valid()
      ensures tail.Valid() && tail.isOpen && tail.maxSize == maxSegmentSize && tail.dir == dir
      ensures tail.path == model.names[|segments| - 1] && tail.View() == model.Last()
      ensures tail.size == model.Last().Size()
      ensures forall i {:trigger segments[i]} :: 0 <= i < |segments| - 1 ==> segments[i] != tail
      ensures model.WellFormed()
    {
      hide FileOf, Body, PutUint64, Parse;
      assert Handle(tail, model.names[|segments| - 1], model.Last());
    }

    lemma HandleOf(s: Segment, name: string, v: Seg)
      requires s.Valid() && s.isOpen && s.dir == dir && s.path == name && s.maxSize == maxSegmentSize
      requires s.View() == v
      ensures Handle(s, name, v)
    {
    }

    /** The new, empty segment becomes the tail. */
    method RollTail()
      requires Valid()
      modifies this`segments, this`model, this`tail, dir`files
      ensures Valid() && fresh(tail) && segments == old(segments) + [tail]
      ensures model == old(model).AddSegment()
    {
      hide OnDisk, FileOf, Body, AllFit, DistinctIds, Format, MaxId;
      var s := AddSegment();
      tail := s;
    }

    /**
     `Append`: to the tail, or to a new tail when that one is full. On a detached tail the
     error is swallowed: the record is reported as accepted and is nowhere.
     */
    method Append(b: Bytes) returns (err: Err)
      requires Closed() || Valid() || Detached()
      modifies this, dir`files, tail
      ensures old(Closed()) ==> err == NotOpen && Closed() && dir.files == old(dir.files)
      ensures old(Valid()) ==> Valid() && (model, err) == old(model).Append(b)
      ensures segments == old(segments) || (segments != [] && fresh(tail) && segments == old(segments) + [tail])
      ensures old(Detached()) ==>
                && Detached() && model == old(model) && dir.files == old(dir.files)
                && err == if model.Usage() + |b| > maxSize then QueueFull else NoError
    {
      if tail == null {
        return NotOpen;
      }
      if tail.isOpen {
        OpenTail();
        err := AppendOpen(b);
      } else {
        ClosedTail();
        err := AppendDetached(b);
      }
    }

    lemma OpenTail()
      requires Valid() || Detached()
      requires tail.isOpen
      ensures Valid() && !Detached()
    {
    }

    lemma ClosedTail()
      requires Valid() || Detached()
      requires !tail.isOpen
      ensures Detached() && !Valid()
    {
      hide OnDisk, FileOf, Body, AllFit, DistinctIds;
      if Valid() {
        ValidTail();
      }
    }

    lemma ValidTail()
      requires Valid()
      ensures tail.isOpen && tail.dir == dir
    {
      assert Handle(tail, model.names[|segments| - 1], model.segs[|segments| - 1]);
    }

    method AppendDetached(b: Bytes) returns (err: Err)
      requires Detached()
      modifies tail, dir`files
      ensures Detached() && dir.files == old(dir.files)
      ensures err == if model.Usage() + |b| > maxSize then QueueFull else NoError
    {
      hide OnDisk, FileOf, Body, AllFit, DistinctIds;
      var used := DiskUsage();
      if used + |b| > maxSize {
        return QueueFull;
      }
      err := tail.Append(b);
      // only a full segment is acted on; that the tail is not open is not passed on
      return NoError;
    }

    method AppendOpen(b: Bytes) returns (err: Err)
      requires Valid()
      modifies this, dir`files, tail
      ensures Valid() && (model, err) == old(model).Append(b)
      ensures segments == old(segments) || (fresh(tail) && segments == old(segments) + [tail])
    {
      hide *;
      ValidServes();
      OpenFacts();
      AppendCases(model, b);
      var used := DiskUsage();
      if used + |b| > maxSize {
        return QueueFull;
      }
      err := AppendToTail(b);
      if err == SegmentFull {
        RollTail();
        err := AppendToTail(b);
      }
    }

    lemma ValidServes()
      requires Valid()
      ensures Serving() && tail != null
    {
    }

    lemma HeadIsValid()
      requires Serving()
      ensures head.Valid() && head.isOpen && head.maxSize == maxSegmentSize && head.dir == dir
      ensures head.path == model.names[0] && head.View() == model.segs[0]
      ensures forall i {:trigger segments[i]} :: 1 <= i < |segments| ==> segments[i] != head
      ensures model.WellFormed() && |model.names| == |model.segs| == |segments|
      ensures model.segs[0].head <= |model.segs[0].blocks|
    {
      assert Handle(head, model.names[0], model.segs[0]);
    }

    /** `Current`: the record at the head of the first segment, and of no other. */
    method Current() returns (b: Bytes, err: Err)
      requires Closed() || Serving()
      modifies this`model, head
      ensures old(Closed()) ==> err == NotOpen && Closed()
      ensures old(Serving()) ==> Serving() && model == old(model).Refresh() && (b, err) == old(model).Current()
    {
      if head == null {
        return [], NotOpen;
      }
      b, err := CurrentOpen();
    }

    method CurrentOpen() returns (b: Bytes, err: Err)
      requires Serving()
      modifies this`model, head
      ensures Serving() && model == old(model).Refresh() && (b, err) == old(model).Current()
    {
      hide Handle, OnDisk, FileOf, Body, Offset, Q.Consistent, Seg.WellFormed, Segment.Valid;
      HeadIsValid();
      RefreshOnDisk(dir.files, model);
      b, err := head.Current();
      model := model.Refresh();
      HandleOf(head, model.names[0], model.segs[0]);
    }

    /** `trimHead`: drops the first segment and its file, unless it is the only one. */
    method TrimHead()
      requires segments != [] && head == segments[0] && head.dir == dir
      modifies this, dir`files, head
      ensures old(Serving()) ==> Serving() && model == old(model).TrimHead()
      ensures segments == old(if |segments| > 1 then segments[1..] else segments) && head == segments[0]
      ensures tail == old(tail) && (|old(segments)| > 1 ==> !old(head).isOpen)
    {
      hide Handle, OnDisk, FileOf, Body, Offset, Q.Consistent, Seg.WellFormed, Segment.Valid, Segment.View;
      if Serving() {
        HeadIsValid();
        TrimOnDisk(dir.files, model);
      }
      if |segments| > 1 {
        segments := segments[1..];
        head.Close();
        dir.files := dir.files - {head.path};
        head := segments[0];
        if |model.names| == |model.segs| {
          model := model.TrimHead();
        }
      }
    }

    /** `l.head.advance()` */
    method AdvanceHead() returns (err: Err)
      requires Serving()
      modifies this`model, dir`files, head
      ensures old(model.Synced()) ==>
                && Serving()
                && model == old(model.(segs := [model.segs[0].Advance()] + model.segs[1..]))
                && err == if model.Drained() then EOF else NoError
    {
      hide Handle, OnDisk, FileOf, Body, Offset, Q.Consistent, Seg.WellFormed, Segment.Valid, Segment.View;
      HeadIsValid();
      AdvanceOnDisk(dir.files, model);
      ghost var synced := model.Synced();
      err := head.Advance();
      model := model.(segs := [model.segs[0].Advance()] + model.segs[1..]);
      if synced {
        HandleOf(head, model.names[0], model.segs[0]);
      }
    }

    /**
     `Advance`: past the record at the head; a segment left without records goes away
     if it is not the only one.
     */
    method Advance() returns (err: Err)
      requires Closed() || Serving()
      modifies this, dir`files, head
      ensures old(Closed()) ==> err == NotOpen && Closed() && dir.files == old(dir.files)
      ensures old(Serving()) ==> err == NoError
      ensures old(Serving() && model.Synced()) ==> Serving() && model == old(model).Advance()
      ensures tail == old(tail) && (segments == old(segments) || segments == old(segments)[1..])
    {
      hide Handle, OnDisk, FileOf, Body, Offset, Q.Consistent, Seg.WellFormed, Segment.Valid, Segment.View;
      if head == null {
        return NotOpen;
      }
      HeadIsValid();
      err := AdvanceHead();
      if err == EOF {
        TrimHead();
      }
      return NoError;
    }

    ghost predicate HandlesFor(segs: seq<Segment>, q: Q)
      reads segs
    {
      && |segs| == |q.segs| == |q.names|
      && forall i {:trigger segs[i]} :: 0 <= i < |segs| ==> Handle(segs[i], q.names[i], q.segs[i])
    }

    /** `newSegment` for a name that is on disk. */
    method LoadOne(name: string) returns (s: Segment, err: Err)
      requires name in dir.files
      modifies dir`files
      ensures fresh(s)
      ensures err == NoError <==> Opens(old(dir.files[name]))
      ensures dir.files == old(dir.files)[name := Content(old(dir.files[name]))]
      ensures IsSegmentFile(dir.files[name]) ==> err == NoError && Handle(s, name, Meaning(dir.files[name]))
    {
      hide Opens, Body, PutUint64, Uint64, Offset;
      NewFileIsEmpty();
      NewOpens();
      if IsSegmentFile(dir.files[name]) {
        SegmentFileOpens(dir.files[name]);
      }
      s, err := Segment.New(dir, name, maxSegmentSize);
    }

    /**
     `loadSegments`: a handle for every numeric name, in the order of the listing. The
     first file that cannot be opened ends it; files that were just created get their footer.
     */
    method LoadSegments() returns (segs: seq<Segment>, err: Err, ghost q: Q)
      requires Sound(dir.files, maxSegmentSize)
      modifies dir`files
      ensures err == NoError <==> AllOpen(old(dir.files))
      ensures err == NoError ==>
                && dir.files == Repaired(old(dir.files)) && Loadable(dir.files, maxSegmentSize)
                && HandlesFor(segs, q) && Loads(dir.files, q)
      ensures q.maxSegmentSize == maxSegmentSize && q.maxSize == maxSize
      ensures forall s :: s in segs ==> fresh(s)
    {
      hide Parse, Less, Lists, Sorted, IsSegmentFile, Meaning, LoadsFrom, Loads, Loadable, Handle, Opens, Sound, AllOpen,
        Repaired, Content, UpTo, HalfRepaired, FileOf;
      var names := dir.ReadDir();
      segs, err, q := [], NoError, Q([], [], maxSegmentSize, maxSize);
      ghost var files := dir.files;
      ghost var fixed := Repaired(files);
      LoadsNone(fixed, names, q);
      HalfNone(files, names);
      for i := 0 to |names|
        invariant forall s :: s in segs ==> fresh(s)
        invariant q.maxSegmentSize == maxSegmentSize && q.maxSize == maxSize
        invariant err == NoError && HalfRepaired(files, names, i, dir.files)
        invariant HandlesFor(segs, q) && LoadsFrom(fixed, UpTo(names, i), q)
      {
        Listed(files, names, i, dir.files, maxSegmentSize);
        if Parse(names[i]).Some? {
          var s;
          s, err := LoadOne(names[i]);
          if err != NoError {
            NotAllOpen(files, names[i]);
            return;
          }
          LoadsNext(fixed, names, i, q);
          q := q.(names := q.names + [names[i]], segs := q.segs + [Meaning(fixed[names[i]])]);
          segs := segs + [s];
        } else {
          LoadsSkips(fixed, names, i, q);
        }
      }
      AllRepaired(files, names, dir.files, maxSegmentSize);
      LoadsAll(fixed, names, q);
    }

    /**
     `Open`: the queue that the files say, less a drained head that is not the only
     segment; if a file cannot be opened the queue stays closed.
     */
    method Open() returns (err: Err, ghost q: Q)
      requires Closed() && Sound(dir.files, maxSegmentSize)
      modifies this, dir`files
      ensures err == NoError <==> AllOpen(old(dir.files))
      ensures err != NoError ==> Closed()
      ensures err == NoError ==> Valid() && Loads(Repaired(old(dir.files)), q) && model == q.Opened()
      ensures q.maxSegmentSize == maxSegmentSize && q.maxSize == maxSize
      ensures forall s :: s in segments ==> fresh(s)
    {
      hide Handle, OnDisk, FileOf, Body, Q.Consistent, Loads, Loadable, Format, MaxId, Q.Opened, Sound, AllOpen, Repaired;
      var segs;
      segs, err, q := LoadSegments();
      if err != NoError {
        return;
      }
      LoadedOnDisk(dir.files, q);
      segments, model := segs, q;
      EnsureSegment();
      head, tail := segments[0], segments[|segments| - 1];
      assert head in segments;
      TrimIfDrained();
      OpenedCases(q);
    }

    /** A directory without segments gets its first one. */
    method EnsureSegment()
      requires Mirrored()
      modifies this`segments, this`model, dir`files
      ensures Mirrored() && segments != []
      ensures model == if old(model.segs) == [] then old(model).AddSegment() else old(model)
      ensures forall s :: s in segments ==> s in old(segments) || fresh(s)
    {
      hide Handle, OnDisk, FileOf, Body, Q.Consistent, Format, MaxId;
      if segments == [] {
        var s := AddSegment();
      }
    }

    method TrimIfDrained()
      requires Valid() && model.Synced()
      modifies this, dir`files, head
      ensures Valid()
      ensures model == if old(model).Drained() then old(model).TrimHead() else old(model)
      ensures forall s :: s in segments ==> s in old(segments)
    {
      hide Handle, OnDisk, FileOf, Body, Q.Consistent;
      HeadIsValid();
      RefreshSynced(model);
      var b, err := CurrentOpen();
      if err == EOF {
        TrimHead();
      }
    }

    /** `Close`: only the files stay. */
    method Close()
      modifies this, segments
      ensures Closed()
      ensures forall s :: s in old(segments) ==> !s.isOpen
    {
      for i := 0 to |segments|
        invariant segments == old(segments)
        invariant forall j :: 0 <= j < i ==> !segments[j].isOpen
      {
        segments[i].Close();
      }
      head, tail, segments := null, null, [];
    }

    /** Closing and opening again, whatever state the tail was in. */
    method Reopen() returns (err: Err)
      requires Serving()
      modifies this, segments, dir`files
      ensures err == NoError && Valid() && Reopens(old(model), model)
    {
      hide *;
      ServingOnDisk();
      ghost var q, files := model, dir.files;
      LeftIsLoadable(files, q);
      Close();
      ghost var l;
      err, l := Open();
      ReopensBy(files, q, l);
    }

    lemma ServingOnDisk()
      requires Serving()
      ensures model.Consistent() && OnDisk(dir.files, model)
      ensures model.maxSegmentSize == maxSegmentSize && model.maxSize == maxSize
    {
    }

    /** The names of the files last modified before the cutoff. */
    ghost function Aged(times: map<string, int>, cutoff: int): (r: set<string>) {
      set k | k in times && times[k] < cutoff
    }

    /**
     `PurgeOlderThan`: drops segments from the front while they are too old. The last one
     is replaced by an empty segment, but the tail is not told.
     */
    method PurgeOlderThan(times: map<string, int>, now: int, cutoff: int)
      requires Closed() || Valid() || Detached()
      requires cutoff <= now && forall k :: k in model.names ==> k in times
      modifies this, dir`files, segments
      ensures old(Closed()) ==> Closed() && dir.files == old(dir.files)
      ensures !old(Closed()) ==> model == old(model).Purge(Aged(times, cutoff))
      ensures old(Valid()) ==>
                if AgedCount(old(model.names), Aged(times, cutoff)) == |old(model.names)| then Detached() else Valid()
      ensures old(Detached()) ==> Detached()
    {
      hide OnDisk, FileOf, Body, AllFit, DistinctIds, Handle, Format, MaxId;
      if |segments| == 0 {
        return;
      }
      PurgeOpen(times, now, cutoff);
    }

    /** One turn of the purge: the first segment goes, after a new one was made if it was the only one. */
    method DropHead(times: map<string, int>, now: int) returns (after: map<string, int>)
      requires Serving()
      modifies this, dir`files, segments
      ensures Serving() && tail == old(tail) && !old(head).isOpen
      ensures |old(segments)| > 1 ==>
                model == old(model).TrimHead() && segments == old(segments)[1..] && after == times
      ensures |old(segments)| == 1 ==>
                && model == old(model).Purge(set k | k in old(model.names)) && fresh(head) && segments == [head]
                && after == times[model.names[0] := now]
    {
      hide OnDisk, FileOf, Body, AllFit, DistinctIds, Format, MaxId, Q.Consistent, Handle;
      HeadIsValid();
      after := times;
      ghost var q := model;
      if |segments| == 1 {
        var s := AddSegment();
        NewLast(s);
        after := after[s.path := now];
        ReplacedSole(q);
      }
      TrimHead();
    }

    lemma NewLast(s: Segment)
      requires Mirrored() && segments != [] && s == segments[|segments| - 1]
      ensures s.path == model.names[|segments| - 1]
    {
      assert Handle(s, model.names[|segments| - 1], model.segs[|segments| - 1]);
    }

    method PurgeOpen(times: map<string, int>, now: int, cutoff: int)
      requires Valid() || Detached()
      requires cutoff <= now && forall k :: k in model.names ==> k in times
      modifies this, dir`files, segments
      ensures model == old(model).Purge(Aged(times, cutoff))
      ensures old(Valid()) ==>
                if AgedCount(old(model.names), Aged(times, cutoff)) == |old(model.names)| then Detached() else Valid()
      ensures old(Detached()) ==> Detached()
    {
      hide OnDisk, FileOf, Body, AllFit, DistinctIds, Format, MaxId, Q.Consistent, Handle, AgedCount, Q.Purge, Mirrored;
      ghost var q, all, aged := model, segments, Aged(times, cutoff);
      var t := times;
      ghost var i := 0;
      HeadIsValid();
      if Valid() {
        ValidTail();
      }
      while t[head.path] < cutoff
        invariant Serving() && tail == old(tail) && |segments| == |model.names|
        invariant head.path == model.names[0] && t == times
        invariant i < |q.names| == |q.segs| == |all|
        invariant old(Detached()) ==> !tail.isOpen && tail !in all
        invariant forall j :: 0 <= j < i ==> q.names[j] in aged
        invariant model == q.(names := q.names[i..], segs := q.segs[i..]) && segments == all[i..]
        decreases |segments|
      {
        var sole := |segments| == 1;
        t := DropHead(t, now);
        HeadIsValid();
        if sole {
          // the next look finds the new segment recent enough
          assert t[head.path] == now;
          PurgeIs(q, i, aged, true);
          return;
        }
        i := i + 1;
      }
      PurgeIs(q, i, aged, false);
    }
  }

  lemma RefreshSynced(q: Q)
    requires q.segs != [] && q.Synced()
    ensures q.Refresh() == q
  {
    assert q.segs == [q.segs[0]] + q.segs[1..];
  }

  lemma ReplacedSole(q: Q)
    requires |q.names| == |q.segs| == 1
    ensures q.AddSegment().TrimHead() == q.Purge(set k | k in q.names)
  {
    hide Format, MaxId;
    assert q.names[0] in q.names;
    assert q.names[0..] == q.names;
  }

  /** What the loop over the old segments comes to. */
  lemma PurgeIs(q: Q, i: nat, aged: set<string>, replaced: bool)
    requires i < |q.names| == |q.segs| && (forall j :: 0 <= j < i ==> q.names[j] in aged)
    requires if replaced then i == |q.names| - 1 && q.names[i] in aged else q.names[i] !in aged
    ensures replaced ==> q.Purge(aged) == q.(names := q.names[i..], segs := q.segs[i..]).Purge(set k | k in q.names[i..])
    ensures !replaced ==> q.Purge(aged) == q.(names := q.names[i..], segs := q.segs[i..])
    ensures AgedCount(q.names, aged) == |q.names| <==> replaced
  {
    hide Format, MaxId;
    var n := AgedCount(q.names, aged);
    if replaced {
      assert q.names[i..] == [q.names[i]];
      assert q.names[i..][0..] == q.names[i..];
      assert q.names[i] in q.names[i..];
    } else {
      assert n == i;
    }
  }

  lemma NewOpens()
    ensures Opens([])
  {
  }

  /** The listed names up to `i` have their footer, the others are as they were. */
  ghost predicate HalfRepaired(files: map<string, Bytes>, names: seq<string>, i: nat, now: map<string, Bytes>)
    requires i <= |names|
  {
    && now.Keys == files.Keys
    && (forall k :: k in files ==> now[k] == if k in UpTo(names, i) then Repaired(files)[k] else files[k])
    && (forall k :: k in UpTo(names, i) && k in files && Parse(k).Some? ==> Opens(files[k]))
  }

  lemma HalfNone(files: map<string, Bytes>, names: seq<string>)
    ensures HalfRepaired(files, names, 0, files)
  {
  }

  lemma Listed(files: map<string, Bytes>, names: seq<string>, i: nat, now: map<string, Bytes>, maxSegmentSize: int)
    requires i < |names| && Lists(names, files.Keys) && HalfRepaired(files, names, i, now)
    requires Sound(files, maxSegmentSize)
    ensures names[i] in files && names[i] in now && now[names[i]] == files[names[i]]
    ensures Parse(names[i]).Some? && Opens(files[names[i]]) ==>
              && Repaired(files)[names[i]] == Content(files[names[i]])
              && IsSegmentFile(Repaired(files)[names[i]])
              && HalfRepaired(files, names, i + 1, now[names[i] := Content(files[names[i]])])
    ensures Parse(names[i]).None? ==> HalfRepaired(files, names, i + 1, now)
  {
    hide Parse, UpTo, FileOf, Opens, IsSegmentFile, Sorted;
    NextListed(files, names, i);
    NewFileIsEmpty();
  }

  lemma NextListed(files: map<string, Bytes>, names: seq<string>, i: nat)
    requires i < |names| && Lists(names, files.Keys)
    ensures names[i] in files && names[i] !in UpTo(names, i)
    ensures UpTo(names, i + 1) == UpTo(names, i) + {names[i]}
  {
    hide Less;
    var k := names[i];
    assert k in names;
    LessIrreflexive(k);
    assert names[..i + 1] == names[..i] + [k];
  }

  lemma NotAllOpen(files: map<string, Bytes>, k: string)
    requires k in files && Parse(k).Some? && !Opens(files[k])
    ensures !AllOpen(files)
  {
  }

  lemma AllRepaired(files: map<string, Bytes>, names: seq<string>, now: map<string, Bytes>, maxSegmentSize: int)
    requires Lists(names, files.Keys) && HalfRepaired(files, names, |names|, now) && Sound(files, maxSegmentSize)
    ensures now == Repaired(files) && AllOpen(files) && Loadable(now, maxSegmentSize)
    ensures Lists(names, Repaired(files).Keys)
  {
    hide Less, Parse, Opens, FileOf;
    assert names[..|names|] == names;
    assert UpTo(names, |names|) == files.Keys;
    RepairedLoadable(files, maxSegmentSize);
  }

  lemma ReopensBy(files: map<string, Bytes>, q: Q, l: Q)
    requires OnDisk(files, q) && Loads(files, l)
    requires l.maxSegmentSize == q.maxSegmentSize && l.maxSize == q.maxSize
    ensures |l.names| == |l.segs| && Reopens(q, l.Opened())
  {
  }

  lemma LoadedOnDisk(files: map<string, Bytes>, q: Q)
    requires Loadable(files, q.maxSegmentSize) && Loads(files, q)
    ensures q.Consistent() && OnDisk(files, q)
    ensures forall i :: 0 <= i < |q.segs| ==> q.segs[i].Synced()
  {
    forall i | 0 <= i < |q.segs| ensures Fits(q.segs[i], q.maxSegmentSize) {
      assert q.names[i] in q.names;
    }
    forall i, j | 0 <= i < j < |q.names| ensures q.names[i] != q.names[j] {
      LessIrreflexive(q.names[i]);
    }
    forall i | 0 <= i < |q.names| ensures Parse(q.names[i]).Some? {
      assert q.names[i] in q.names;
    }
  }

  lemma OpenedCases(q: Q)
    requires |q.names| == |q.segs|
    ensures var r := if q.segs == [] then q.AddSegment() else q;
            r.segs != [] && q.Opened() == if r.Drained() then r.TrimHead() else r
  {
  }

  lemma AppendCases(q: Q, b: Bytes)
    requires q.segs != []
    ensures q.Append(b) ==
            if q.Usage() + |b| > q.maxSize then (q, QueueFull)
            else if q.Last().Size() + |b| <= q.maxSegmentSize then (q.WithLast(q.Last().Append(b)), NoError)
            else
              var r := q.AddSegment();
              if r.Last().Size() + |b| <= q.maxSegmentSize then (r.WithLast(r.Last().Append(b)), NoError)
              else (r, SegmentFull)
  {
    EmptySize();
  }

  lemma RefreshOnDisk(files: map<string, Bytes>, q: Q)
    requires q.WellFormed() && OnDisk(files, q)
    ensures q.Refresh().WellFormed() && OnDisk(files, q.Refresh())
    ensures q.Refresh().segs[1..] == q.segs[1..] && |q.Refresh().segs| == |q.segs|
  {
    hide Body, PutUint64, PendingOf, Parse, DistinctIds, OnDisk;
    CurrentIsFront(q);
    var s := q.segs[0].Refresh();
    FirstOnDisk(files, q);
    OnDiskWritten(files, q, 0, s);
    assert FileOf(s) == FileOf(q.segs[0]);
    assert files[q.names[0] := FileOf(s)] == files;
    assert q.segs[0 := s] == [s] + q.segs[1..];
  }

  lemma FirstOnDisk(files: map<string, Bytes>, q: Q)
    requires q.WellFormed() && OnDisk(files, q)
    ensures q.names[0] in files && files[q.names[0]] == FileOf(q.segs[0]) && q.segs[0].WellFormed()
  {
  }

  lemma AdvanceOnDisk(files: map<string, Bytes>, q: Q)
    requires q.WellFormed() && OnDisk(files, q)
    ensures var r := q.(segs := [q.segs[0].Advance()] + q.segs[1..]);
            r.WellFormed() && OnDisk(files[q.names[0] := FileOf(q.segs[0].Advance())], r)
  {
    hide Body, FileOf, PendingOf, UsageOf, DistinctIds, OnDisk;
    AdvanceFirst(q.segs, q.maxSegmentSize);
    AdvancedFits(q.segs[0], q.maxSegmentSize);
    OnDiskWritten(files, q, 0, q.segs[0].Advance());
    assert q.segs[0 := q.segs[0].Advance()] == [q.segs[0].Advance()] + q.segs[1..];
  }

  lemma TrimOnDisk(files: map<string, Bytes>, q: Q)
    requires q.WellFormed() && OnDisk(files, q)
    ensures q.TrimHead().WellFormed()
    ensures |q.segs| > 1 ==> OnDisk(files - {q.names[0]}, q.TrimHead())
  {
    if |q.segs| > 1 {
      OnDiskTrimmed(files, q);
    }
  }

  lemma TailAppendOnDisk(files: map<string, Bytes>, q: Q, b: Bytes)
    requires q.WellFormed() && OnDisk(files, q)
    ensures var s := q.Last();
            var name := q.names[|q.segs| - 1];
            && name in files && files[name] == FileOf(s)
            && files[name := FileOf(s)] == files
            && (s.Size() + |b| <= q.maxSegmentSize ==>
                  && q.WithLast(s.Append(b)).WellFormed()
                  && OnDisk(files[name := FileOf(s.Append(b))], q.WithLast(s.Append(b))))
  {
    hide Body, PendingOf, UsageOf, Parse;
    var n := |q.segs| - 1;
    var s := q.segs[n];
    if s.Size() + |b| <= q.maxSegmentSize {
      AppendKeeps(s, b);
      WithLastAppended(q, b);
      OnDiskWritten(files, q, n, s.Append(b));
      assert q.segs[n := s.Append(b)] == q.segs[..n] + [s.Append(b)];
    }
  }

  lemma AppendKeeps(s: Seg, b: Bytes)
    requires s.WellFormed()
    ensures s.Append(b).WellFormed()
  {
  }

  lemma AddedOnDisk(files: map<string, Bytes>, q: Q, id: nat)
    requires q.Consistent() && OnDisk(files, q)
    requires id > 0
    requires forall k :: k in files && Parse(k).Some? ==> Parse(k).value < id
    requires id == 1 || exists k :: k in files && Parse(k) == Some((id - 1) as nat)
    ensures Format(id) !in files && q.AddSegment().names == q.names + [Format(id)]
    ensures q.AddSegment().Consistent()
    ensures OnDisk(files[Format(id) := FileOf(Empty)], q.AddSegment())
  {
    hide Parse, Format, MaxId, OnDisk, FileOf, Body, AllFit, DistinctIds;
    NextIdIsMax(files, q, id);
    AddSegmentFits(q);
    OnDiskAdded(files, q, Format(id));
  }

  lemma NextIdIsMax(files: map<string, Bytes>, q: Q, id: nat)
    requires OnDisk(files, q)
    requires id > 0
    requires forall k :: k in files && Parse(k).Some? ==> Parse(k).value < id
    requires id == 1 || exists k :: k in files && Parse(k) == Some((id - 1) as nat)
    ensures id == MaxId(q.names) + 1
    ensures Parse(Format(id)).Some? && Format(id) !in files && Format(id) !in q.names
  {
    ParseFormat(id);
    hide Parse, Format, MaxId, FileOf;
    if MaxId(q.names) != 0 {
      var i :| 0 <= i < |q.names| && Parse(q.names[i]) == Some(MaxId(q.names));
      assert q.names[i] in q.names;
    }
    if id != 1 {
      var k :| k in files && Parse(k) == Some((id - 1) as nat);
      var i :| 0 <= i < |q.names| && q.names[i] == k;
    }
  }
}
