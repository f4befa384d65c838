/**
 Type-length-value frames between cluster nodes: the writer of coordinator/service.go
 and the resumable reader of coordinator/request/request.go.
 */
module Framing {
  import opened Bytes
  import opened Connection

  const MAX_BODY: nat := 1024 * 1024 * 1024
  const READ_SIZE: nat := 64

  datatype Message = Message(typ: byte, body: Bytes)

  /** `WriteTLV` */
  function Encode(m: Message): (b: Bytes)
    ensures |b| == 9 + |m.body|
  {
    [m.typ] + PutUint64(|m.body|) + m.body
  }

  /** On the wire: the type in one byte, the length in eight with the most significant first, then the body. */
  lemma EncodingLayout(m: Message)
    requires |m.body| < TWO_64
    ensures Encode(m)[0] == m.typ && Encode(m)[9..] == m.body
    ensures FromBigEndian(Encode(m)[1..9]) == |m.body|
  {
    Pow256Of8();
    BigEndianRoundTrip(|m.body|, 8);
    assert Encode(m)[1..9] == PutUint64(|m.body|);
  }

  function EncodeAll(ms: seq<Message>): (b: Bytes) {
    if ms == [] then [] else Encode(ms[0]) + EncodeAll(ms[1..])
  }

  ghost predicate Fits(ms: seq<Message>) {
    forall m :: m in ms ==> |m.body| <= MAX_BODY
  }

  datatype Fetched = Nothing | Got(message: Message) | Panicked

  datatype Received = Received(message: Message) | Failed(err: IoErr) | Crashed

  /** The length field of the frame that `data` starts with. */
  function LengthField(data: Bytes): (n: nat)
    requires |data| >= 9
  {
    Uint64(data[1..9])
  }

  /** `data` starts with a whole frame. */
  predicate HasFrame(data: Bytes) {
    |data| >= 9 && |data| >= 9 + LengthField(data)
  }

  function FrameOf(data: Bytes): (m: Message)
    requires HasFrame(data)
  {
    Message(data[0], data[9..9 + LengthField(data)])
  }

  /** A whole frame is the encoding of its message, and any encoding is such a frame. */
  lemma FrameDecodes(data: Bytes)
    requires HasFrame(data)
    ensures Encode(FrameOf(data)) <= data
    ensures |Encode(FrameOf(data))| == 9 + LengthField(data)
  {
    var n := LengthField(data);
    Uint64Inverse(data[1..9]);
    assert data[..9 + n] == [data[0]] + data[1..9] + data[9..9 + n];
  }

  lemma EncodingDecodes(m: Message, rest: Bytes)
    requires |m.body| < TWO_64
    ensures HasFrame(Encode(m) + rest) && FrameOf(Encode(m) + rest) == m
    ensures LengthField(Encode(m) + rest) == |m.body|
  {
    var data := Encode(m) + rest;
    assert data[1..9] == PutUint64(|m.body|);
    Uint64RoundTrip(|m.body|);
    assert data[9..9 + |m.body|] == m.body;
  }

  class MessageReader {
    var data: Bytes

    constructor ()
      ensures data == []
    {
      data := [];
    }

    /** `fetch`: takes the first frame off the buffer if it is complete. */
    method Fetch() returns (r: Fetched)
      modifies this
      ensures r.Panicked? <==> |old(data)| >= 9 && LengthField(old(data)) > MAX_BODY
      ensures r.Nothing? <==> !r.Panicked? && !HasFrame(old(data))
      ensures !r.Got? ==> data == old(data)
      ensures r.Got? ==> HasFrame(old(data)) && r.message == FrameOf(old(data))
      ensures r.Got? ==> old(data) == Encode(r.message) + data && |r.message.body| <= MAX_BODY
    {
      hide PutUint64, Uint64;
      var sz := |data|;
      if sz < 9 {
        return Nothing;
      }
      var l := Uint64(data[1..9]);
      if l > MAX_BODY {
        return Panicked;
      }
      var consumed := l + 8 + 1;
      if sz < consumed {
        return Nothing;
      }
      FrameDecodes(data);
      var message := Message(data[0], data[9..consumed]);
      for i := 0 to sz - consumed
        invariant |data| == sz
        invariant forall j :: 0 <= j < i ==> data[j] == old(data)[j + consumed]
        invariant forall j :: i <= j < sz ==> data[j] == old(data)[j]
      {
        data := data[i := data[i + consumed]];
      }
      data := data[..sz - consumed];
      assert data == old(data)[consumed..];
      return Got(message);
    }

    /** One read of the connection, appended to the buffer. */
    method Pull(source: Source, buf: array<byte>) returns (n: nat, err: IoErr)
      requires buf.Length > 0
      modifies this, source, buf
      ensures data + Stream(source.chunks) == old(data + Stream(source.chunks))
      ensures n == 0 ==> data == old(data)
      ensures if old(source.chunks) == [] then err == Eof && source.chunks == []
              else Left(source.chunks) < Left(old(source.chunks))
    {
      hide Deliver, Stream, Left;
      ghost var d := Deliver(source.chunks, buf.Length);
      DeliverConserves(source.chunks, buf.Length);
      DeliverNothing(source.chunks, buf.Length);
      Regroup(data, d.data, Stream(d.rest));
      n, err := source.Read(buf);
      data := data + buf[..n];
    }

    /** `Read`: the next message, whatever pieces it arrives in; on an error the pieces are kept. */
    method Read(source: Source) returns (r: Received)
      modifies this, source
      ensures old(data) + Stream(old(source.chunks)) ==
              (if r.Received? then Encode(r.message) else []) + (data + Stream(source.chunks))
      ensures r.Received? ==> |r.message.body| <= MAX_BODY
      ensures r.Crashed? ==> |data| >= 9 && LengthField(data) > MAX_BODY
      ensures r.Failed? ==> !HasFrame(data)
      ensures Left(source.chunks) <= Left(old(source.chunks))
      ensures r.Failed? && old(source.chunks) != [] ==> Left(source.chunks) < Left(old(source.chunks))
    {
      hide PutUint64, Uint64, Encode, HasFrame, FrameOf, LengthField, Deliver, Stream, Left;
      var f := Fetch();
      if f.Got? {
        Regroup(Encode(f.message), data, Stream(source.chunks));
        return Received(f.message);
      } else if f.Panicked? {
        return Crashed;
      }
      var buf := new byte[READ_SIZE];
      ghost var whole := data + Stream(source.chunks);
      while true
        invariant fresh(buf) && buf.Length == READ_SIZE
        invariant data + Stream(source.chunks) == whole
        invariant !HasFrame(data)
        invariant Left(source.chunks) <= Left(old(source.chunks))
        invariant source.chunks == old(source.chunks) || Left(source.chunks) < Left(old(source.chunks))
        decreases Left(source.chunks)
      {
        var n, err := Pull(source, buf);
        if n > 0 {
          f := Fetch();
          if f.Got? {
            Regroup(Encode(f.message), data, Stream(source.chunks));
            return Received(f.message);
          } else if f.Panicked? {
            return Crashed;
          }
        }
        if err != Ok {
          return Failed(err);
        }
      }
    }
  }

  lemma Regroup(a: Bytes, b: Bytes, c: Bytes)
    ensures (a + b) + c == a + (b + c)
  {
  }

  lemma Cancel(a: Bytes, x: Bytes, y: Bytes)
    requires a + x == a + y
    ensures x == y
  {
    assert (a + x)[|a|..] == x && (a + y)[|a|..] == y;
  }

  lemma {:induction false} EncodeAllSplit(ms: seq<Message>, k: nat)
    requires k <= |ms|
    ensures EncodeAll(ms) == EncodeAll(ms[..k]) + EncodeAll(ms[k..])
  {
    hide Encode;
    if k == 0 {
      assert ms[..0] == [] && ms[0..] == ms;
    } else {
      EncodeAllSplit(ms[1..], k - 1);
      assert ms[..k][1..] == ms[1..][..k - 1] && ms[1..][k - 1..] == ms[k..];
    }
  }

  lemma EncodeAllSnoc(ms: seq<Message>, k: nat)
    requires k < |ms|
    ensures EncodeAll(ms[..k + 1]) == EncodeAll(ms[..k]) + Encode(ms[k])
    ensures EncodeAll(ms) == EncodeAll(ms[..k]) + Encode(ms[k]) + EncodeAll(ms[k + 1..])
  {
    hide EncodeAll, Encode;
    EncodeAllSplit(ms, k + 1);
    EncodeAllSplit(ms[..k + 1], k);
    assert ms[..k + 1][..k] == ms[..k] && ms[..k + 1][k..] == [ms[k]];
    EncodeOne(ms[k]);
  }

  lemma EncodeOne(m: Message)
    ensures EncodeAll([m]) == Encode(m)
  {
    assert [m][1..] == [];
  }

  /** Bytes that continue a prefix of an encoded list start with its next message. */
  lemma NextFrame(ms: seq<Message>, k: nat, rest: Bytes)
    requires k <= |ms| && Fits(ms) && EncodeAll(ms[..k]) + rest == EncodeAll(ms)
    ensures k == |ms| ==> rest == []
    ensures k < |ms| ==>
              && HasFrame(rest) && FrameOf(rest) == ms[k]
              && LengthField(rest) <= MAX_BODY
  {
    hide Encode, HasFrame, FrameOf, LengthField;
    if k < |ms| {
      EncodeAllSnoc(ms, k);
      var next := Encode(ms[k]) + EncodeAll(ms[k + 1..]);
      Regroup(EncodeAll(ms[..k]), Encode(ms[k]), EncodeAll(ms[k + 1..]));
      Cancel(EncodeAll(ms[..k]), rest, next);
      EncodingDecodes(ms[k], EncodeAll(ms[k + 1..]));
    } else {
      assert ms[..k] == ms;
      Cancel(EncodeAll(ms), rest, []);
    }
  }

  lemma ReceivedIsNext(ms: seq<Message>, k: nat, m: Message, rest: Bytes)
    requires k <= |ms| && Fits(ms) && |m.body| <= MAX_BODY
    requires EncodeAll(ms[..k]) + (Encode(m) + rest) == EncodeAll(ms)
    ensures k < |ms| && m == ms[k]
  {
    hide Encode, HasFrame, FrameOf, LengthField, EncodeAll, Fits;
    var next := Encode(m) + rest;
    NextFrame(ms, k, next);
    EncodingDecodes(m, rest);
    assert |next| >= 9;
  }

  lemma ReceivedNext(ms: seq<Message>, k: nat, m: Message, rest: Bytes)
    requires k <= |ms| && Fits(ms) && |m.body| <= MAX_BODY
    requires EncodeAll(ms[..k]) + (Encode(m) + rest) == EncodeAll(ms)
    ensures k < |ms| && ms[..k] + [m] == ms[..k + 1]
    ensures EncodeAll(ms[..k + 1]) + rest == EncodeAll(ms)
  {
    hide *;
    ReceivedIsNext(ms, k, m, rest);
    EncodeAllSnoc(ms, k);
    Regroup(EncodeAll(ms[..k]), Encode(m), rest);
  }

  lemma FailedAtEnd(ms: seq<Message>, k: nat, data: Bytes)
    requires k <= |ms| && Fits(ms) && EncodeAll(ms[..k]) + data == EncodeAll(ms) && !HasFrame(data)
    ensures k == |ms|
  {
    NextFrame(ms, k, data);
  }

  lemma NeverCrashes(ms: seq<Message>, k: nat, data: Bytes, rest: Bytes)
    requires k <= |ms| && Fits(ms) && EncodeAll(ms[..k]) + (data + rest) == EncodeAll(ms)
    ensures |data| >= 9 ==> LengthField(data) <= MAX_BODY
  {
    NextFrame(ms, k, data + rest);
    if |data| >= 9 {
      assert (data + rest)[1..9] == data[1..9];
    }
  }

  lemma NothingLeft(chunks: seq<Chunk>)
    ensures Left(chunks) <= Left([]) ==> chunks == [] && Stream(chunks) == []
  {
  }

  /**
   Receives a whole list of messages from a connection that delivers their encodings
   in chunks of any sizes, with read errors in between: exactly the list comes out.
   */
  method ReceiveAll(chunks: seq<Chunk>, ghost ms: seq<Message>) returns (out: seq<Message>)
    requires Fits(ms) && Stream(chunks) == EncodeAll(ms)
    ensures out == ms
  {
    hide PutUint64, Uint64, Encode, HasFrame, FrameOf, LengthField, Stream, Fits, Left;
    var source := new Source(chunks);
    var reader := new MessageReader();
    out := [];
    assert ms[..0] == [];
    assert EncodeAll([]) + ([] + Stream(chunks)) == EncodeAll(ms);
    while true
      invariant fresh(source) && fresh(reader)
      invariant |out| <= |ms| && out == ms[..|out|]
      invariant EncodeAll(ms[..|out|]) + (reader.data + Stream(source.chunks)) == EncodeAll(ms)
      decreases |ms| - |out|, Left(source.chunks)
    {
      ghost var k, rest := |out|, reader.data + Stream(source.chunks);
      NextFrame(ms, k, rest);
      var last := source.chunks == [];
      var r := reader.Read(source);
      NothingLeft(source.chunks);
      ghost var now := reader.data + Stream(source.chunks);
      match r {
        case Received(m) =>
          ReceivedNext(ms, k, m, now);
          out := out + [m];
        case Failed(_) =>
          assert rest == now;
          if last {
            assert now == reader.data;
            FailedAtEnd(ms, k, reader.data);
            return;
          }
        case Crashed =>
          assert rest == now;
          NeverCrashes(ms, k, reader.data, Stream(source.chunks));
          assert false;
      }
    }
  }
}
