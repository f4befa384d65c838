/**
 The terminator-stripping reader of coordinator/remote_executor.go. It holds back the
 last |terminator| bytes it has read, so that everything it hands out is everything
 read so far except those, and it stops on the read that completes the terminator.
 */
module IteratorReader {
  import opened Bytes
  import opened Connection
  import opened CyclicBuffer

  /** Everything but the last `l` bytes. */
  function Emitted(s: Bytes, l: nat): (e: Bytes) {
    if |s| < l then [] else s[..|s| - l]
  }

  predicate EndsWith(s: Bytes, t: Bytes) {
    |t| <= |s| && s[|s| - |t|..] == t
  }

  /** `shiftBuffer`: moves `data` right by `k` and puts the first `k` bytes of `header` in front. */
  method ShiftBuffer(data: array<byte>, header: array<byte>, k: nat)
    requires k <= header.Length && data != header
    modifies data
    ensures k > data.Length ==> data[..] == old(data[..])
    ensures k <= data.Length ==> data[..] == header[..k] + old(data[..data.Length - k])
  {
    if k > data.Length {
      return;
    }
    ghost var was := data[..];
    var i := data.Length - 1;
    while i >= k
      invariant k - 1 <= i < data.Length
      invariant forall j :: i < j < data.Length ==> data[j] == was[j - k]
      invariant forall j :: 0 <= j <= i ==> data[j] == was[j]
    {
      data[i] := data[i - k];
      i := i - 1;
    }
    for j := 0 to k
      invariant forall m :: k <= m < data.Length ==> data[m] == was[m - k]
      invariant forall m :: 0 <= m < j ==> data[m] == header[m]
    {
      data[j] := header[j];
    }
    Joined(data[..], header[..k], was[..data.Length - k]);
  }

  lemma Joined(r: Bytes, a: Bytes, b: Bytes)
    requires |r| == |a| + |b|
    requires (forall i :: 0 <= i < |a| ==> r[i] == a[i]) && (forall i :: |a| <= i < |r| ==> r[i] == b[i - |a|])
    ensures r == a + b
  {
  }

  /**
   After reading `c` on top of `s`, the held-back tail of `s` followed by the front of
   `c` continues what was already handed out.
   */
  lemma Emission(s: Bytes, c: Bytes, l: nat)
    requires |s| + |c| >= l
    ensures var d := Min(|s|, l);
            var k := Min(d, |c|);
            var n := if |s| < l then |c| - (l - |s|) else |c|;
            && 0 <= n <= |c|
            && Emitted(s, l) + (s[|s| - d..][..k] + c[..|c| - k])[..n] == Emitted(s + c, l)
  {
    if |s| < l {
      HeldThenNew(s, c);
      assert s[0..] == s;
      TakeTwice(s + c, |c|, |s| + |c| - l);
    } else {
      var front, held := s[..|s| - l], s[|s| - l..];
      HeldThenNew(held, c);
      TakeBehind(front, held + c, |c|);
      assert front + (held + c) == s + c;
    }
  }

  lemma HeldThenNew(a: Bytes, c: Bytes)
    ensures var k := Min(|a|, |c|);
            a[..k] + c[..|c| - k] == (a + c)[..|c|]
  {
  }

  lemma TakeTwice(a: Bytes, m: nat, n: nat)
    requires n <= m <= |a|
    ensures a[..m][..n] == a[..n]
  {
  }

  lemma TakeBehind(a: Bytes, b: Bytes, n: nat)
    requires n <= |b|
    ensures a + b[..n] == (a + b)[..|a| + n]
  {
  }

  class IteratorReader {
    const source: Source
    const terminator: Bytes
    const buf: array<byte>
    const judger: CyclicBuffer
    var terminated: bool
    var bytes: nat

    ghost var seen: Bytes

    ghost predicate Valid()
      reads this, judger, judger.buf
    {
      && judger.Valid() && judger.written == seen && bytes == |seen|
      && buf.Length == |terminator| == judger.buf.Length && buf != judger.buf
      && (terminated ==> EndsWith(seen, terminator))
      && (!terminated && seen != [] ==> !EndsWith(seen, terminator))
    }

    constructor (source: Source, terminator: Bytes)
      ensures Valid() && this.source == source && this.terminator == terminator
      ensures fresh(judger) && fresh(judger.buf) && fresh(buf)
      ensures !terminated && seen == []
    {
      this.source, this.terminator := source, terminator;
      buf := new byte[|terminator|];
      judger := new CyclicBuffer(|terminator|);
      terminated, bytes, seen := false, 0, [];
    }

    /**
     `Read`. The bytes handed out so far are always the bytes read so far without the
     last |terminator| of them; end of file is reported on the read after which those
     are the terminator, and from then on.
     */
    method Read(p: array<byte>) returns (n: nat, err: IoErr)
      requires Valid() && p != buf && p != judger.buf
      modifies this, source, judger, judger.buf, buf, p
      ensures Valid() && n <= p.Length
      ensures old(terminated) ==> n == 0 && err == Eof && terminated && seen == old(seen) && unchanged(source)
      ensures var d := Deliver(old(source.chunks), p.Length);
              !old(terminated) ==>
                && source.chunks == d.rest && seen == old(seen) + d.data
                && Emitted(old(seen), |terminator|) + p[..n] == Emitted(seen, |terminator|)
                && err == if terminated then Eof
                          else if d.data != [] && |seen| < |terminator| then Ok else d.err
    {
      if terminated {
        return 0, Eof;
      }
      var got;
      got, err := source.Read(p);
      var before := bytes;
      bytes := bytes + got;
      if got == 0 {
        assert seen + [] == seen;
        return 0, err;
      }
      n, err := Digest(p, got, before, err);
    }

    lemma StopFacts()
      requires Valid()
      ensures terminated ==> EndsWith(seen, terminator)
      ensures !terminated && seen != [] ==> !EndsWith(seen, terminator)
    {
    }

    /** The part of `Read` after the connection delivered `got` bytes. */
    method Digest(p: array<byte>, got: nat, before: nat, readErr: IoErr) returns (n: nat, err: IoErr)
      requires judger.Valid() && judger.written == seen && before == |seen| && bytes == |seen| + got
      requires buf.Length == |terminator| == judger.buf.Length && buf != judger.buf
      requires p != buf && p != judger.buf && 0 < got <= p.Length && !terminated
      modifies this`terminated, this`seen, judger, judger.buf, buf, p
      ensures Valid() && n <= p.Length
      ensures seen == old(seen) + old(p[..got])
      ensures Emitted(old(seen), |terminator|) + p[..n] == Emitted(seen, |terminator|)
      ensures err == if terminated then Eof else if |seen| < |terminator| then Ok else readErr
    {
      hide LastOf, Emitted, EndsWith, CyclicBuffer.Valid, CyclicBuffer.Window;
      ghost var s, c := seen, p[..got];
      var dumped := judger.Dump(buf);
      judger.Write(p[..got]);
      seen := seen + c;
      TailMatches(seen, terminator);
      ShortEmission(s, c, |terminator|);
      if bytes < |terminator| {
        return 0, Ok;
      }
      n := Splice(p, got, before, dumped, s);
      err := readErr;
      var matches := judger.Compare(terminator);
      if matches {
        terminated := true;
        err := Eof;
      }
    }

    /** Puts the bytes held back so far in front of the new ones; how many of them to hand out. */
    method Splice(p: array<byte>, got: nat, before: nat, dumped: nat, ghost s: Bytes) returns (n: nat)
      requires p != buf && 0 < got <= p.Length && before == |s| && before + got >= buf.Length
      requires dumped == Min(|s|, buf.Length) && buf[..dumped] == s[|s| - dumped..]
      modifies p
      ensures n <= p.Length
      ensures Emitted(s, buf.Length) + p[..n] == Emitted(s + old(p[..got]), buf.Length)
    {
      hide Emitted;
      ghost var c := p[..got];
      Emission(s, c, buf.Length);
      var k := Min(dumped, got);
      assert buf[..k] == s[|s| - dumped..][..k];
      ShiftBuffer(p, buf, k);
      assert p[..got] == buf[..k] + c[..got - k];
      n := if before < buf.Length then got - (buf.Length - before) else got;
      assert p[..n] == p[..got][..n];
    }
  }

  lemma TailMatches(s: Bytes, t: Bytes)
    ensures |s| >= |t| ==> (t == LastOf(s, |t|) <==> EndsWith(s, t))
    ensures |s| < |t| ==> !EndsWith(s, t)
  {
  }

  lemma ShortEmission(s: Bytes, c: Bytes, l: nat)
    ensures |s| + |c| < l ==> Emitted(s, l) == [] == Emitted(s + c, l)
  {
  }

  /** The terminator ends the stream and no shorter prefix of it. */
  ghost predicate OnlyAtEnd(stream: Bytes, t: Bytes) {
    forall i :: 0 <= i <= |stream| ==> (EndsWith(stream[..i], t) <==> i == |stream|)
  }

  /**
   No error comes before the last byte, except together with bytes that do not yet make
   up the length `l` of the terminator: those the reader keeps to itself.
   */
  predicate LateErrors(chunks: seq<Chunk>, seen: nat, l: nat)
    decreases |chunks|
  {
    chunks == [] ||
    var c, n := chunks[0], seen + |chunks[0].data|;
    && (c.err != Ok && (c.data == [] || n >= l) ==> Stream(chunks[1..]) == [])
    && LateErrors(chunks[1..], n, l)
  }

  lemma {:induction false} NothingLate(chunks: seq<Chunk>, seen: nat, l: nat)
    requires Stream(chunks) == []
    ensures LateErrors(chunks, seen, l)
    decreases |chunks|
  {
    if chunks != [] {
      NothingLate(chunks[1..], seen + |chunks[0].data|, l);
    }
  }

  /** What one read leaves of that condition. */
  lemma LateAfter(chunks: seq<Chunk>, seen: nat, l: nat, size: nat)
    requires chunks != [] && size > 0
    ensures var d := Deliver(chunks, size);
            var n := seen + |d.data|;
            LateErrors(chunks, seen, l) <==>
              (d.err != Ok && (d.data == [] || n >= l) ==> Stream(d.rest) == []) && LateErrors(d.rest, n, l)
  {
    var c, d := chunks[0], Deliver(chunks, size);
    if |c.data| > size {
      assert d.rest[1..] == chunks[1..];
      assert d.rest[0] == Chunk(c.data[size..], c.err);
    }
  }

  /**
   Reads until end of file or an error with a buffer of any size, from a connection that
   delivers `payload` and then the terminator in chunks of any sizes with any errors: what
   comes out is always a prefix of the payload, and all of it, with the terminator
   recognised, exactly when no error that is passed on comes before the last byte.
   */
  method ReadPayload(chunks: seq<Chunk>, terminator: Bytes, size: nat, ghost payload: Bytes)
    returns (out: Bytes, ended: bool)
    requires size > 0 && terminator != []
    requires Stream(chunks) == payload + terminator && OnlyAtEnd(payload + terminator, terminator)
    ensures out <= payload
    ensures ended <==> LateErrors(chunks, 0, |terminator|)
    ensures ended ==> out == payload
  {
    hide CyclicBuffer.Valid, Deliver, Emitted, EndsWith, OnlyAtEnd, Stream, LateErrors;
    var source := new Source(chunks);
    var reader := new IteratorReader(source, terminator);
    var p := new byte[size];
    out := [];
    var err := Ok;
    ghost var whole, l := payload + terminator, |terminator|;
    EmittedNothing(l);
    assert [] + Stream(chunks) == whole;
    while err == Ok
      invariant reader.Valid() && reader.source == source && reader.terminator == terminator
      invariant fresh(source) && fresh(p) && fresh(reader) && fresh(reader.judger)
      invariant fresh(reader.judger.buf) && fresh(reader.buf)
      invariant p != reader.buf && p != reader.judger.buf
      invariant reader.seen + Stream(source.chunks) == whole
      invariant out == Emitted(reader.seen, l)
      invariant err == Ok ==> !reader.terminated
      invariant err == Ok || Stream(source.chunks) == [] ==>
        (LateErrors(chunks, 0, l) <==> LateErrors(source.chunks, |reader.seen|, l))
      invariant err != Ok && Stream(source.chunks) != [] ==> !LateErrors(chunks, 0, l)
      decreases err == Ok, Left(source.chunks)
    {
      ghost var seen, before := reader.seen, source.chunks;
      DeliverConserves(before, p.Length);
      ghost var d := Deliver(before, p.Length);
      assert (seen + d.data) + Stream(d.rest) == seen + (d.data + Stream(d.rest));
      DeliverNothing(before, p.Length);
      if before == [] {
        NothingToCome();
      } else {
        LateAfter(before, |seen|, l, p.Length);
      }
      var n;
      n, err := reader.Read(p);
      out := out + p[..n];
      StopsAtEnd(reader.seen, source.chunks, payload, terminator);
      reader.StopFacts();
    }
    StopsAtEnd(reader.seen, source.chunks, payload, terminator);
    reader.StopFacts();
    if Stream(source.chunks) == [] {
      NothingLate(source.chunks, |reader.seen|, l);
    }
    ended := reader.terminated;
  }

  lemma NothingToCome()
    ensures Stream([]) == []
  {
  }

  lemma EmittedNothing(l: nat)
    ensures Emitted([], l) == []
  {
  }

  /** A prefix of the stream that ends with the terminator is all of it. */
  lemma StopsAtEnd(seen: Bytes, rest: seq<Chunk>, payload: Bytes, t: Bytes)
    requires seen + Stream(rest) == payload + t && OnlyAtEnd(payload + t, t)
    ensures EndsWith(seen, t) <==> Stream(rest) == []
    ensures EndsWith(seen, t) ==> seen == payload + t && Emitted(seen, |t|) == payload
    ensures Emitted(seen, |t|) <= payload
    ensures t != [] && Stream(rest) == [] ==> seen != []
  {
    var whole := payload + t;
    assert seen == whole[..|seen|];
    assert whole[..|whole|] == whole;
  }
}
