/**
 A connection as both streaming readers see it: bytes that arrive in chunks of any
 size, each possibly with an error, cut further when the caller's buffer is small.
 */
module Connection {
  import opened Bytes

  datatype IoErr = Ok | Eof | Broken

  /** One delivery of the connection: some bytes and the error that comes with the last one. */
  datatype Chunk = Chunk(data: Bytes, err: IoErr)

  function Stream(chunks: seq<Chunk>): (s: Bytes) {
    if chunks == [] then [] else chunks[0].data + Stream(chunks[1..])
  }

  /** How much a connection still has to do: deliver its bytes and its chunks. */
  function Left(chunks: seq<Chunk>): (n: nat) {
    |chunks| + |Stream(chunks)|
  }

  datatype Delivery = Delivery(data: Bytes, err: IoErr, rest: seq<Chunk>)

  /** What reading into a buffer of `size` bytes delivers; a longer chunk is cut. */
  function Deliver(chunks: seq<Chunk>, size: nat): (d: Delivery)
    ensures |d.data| <= size
  {
    if chunks == [] then Delivery([], Eof, [])
    else
      var c := chunks[0];
      if |c.data| <= size then Delivery(c.data, c.err, chunks[1..])
      else Delivery(c.data[..size], Ok, [Chunk(c.data[size..], c.err)] + chunks[1..])
  }

  /** Reading neither loses nor invents bytes, and makes progress unless the buffer is empty. */
  lemma DeliverConserves(chunks: seq<Chunk>, size: nat)
    ensures var d := Deliver(chunks, size);
            && d.data + Stream(d.rest) == Stream(chunks)
            && (size > 0 && chunks != [] ==> Left(d.rest) < Left(chunks))
  {
    if chunks != [] && |chunks[0].data| > size {
      var c, d := chunks[0], Deliver(chunks, size);
      assert d.rest[1..] == chunks[1..];
      assert c.data == c.data[..size] + c.data[size..];
    }
  }

  lemma DeliverNothing(chunks: seq<Chunk>, size: nat)
    ensures chunks == [] ==> Deliver(chunks, size) == Delivery([], Eof, [])
  {
  }

  /** A connection that delivers a script of chunks. */
  class Source {
    var chunks: seq<Chunk>

    constructor (chunks: seq<Chunk>)
      ensures this.chunks == chunks
    {
      this.chunks := chunks;
    }

    method Read(p: array<byte>) returns (n: nat, err: IoErr)
      modifies this, p
      ensures n <= p.Length
      ensures Delivery(p[..n], err, chunks) == Deliver(old(chunks), p.Length)
    {
      var d := Deliver(chunks, p.Length);
      n, err, chunks := |d.data|, d.err, d.rest;
      for i := 0 to n
        invariant p[..i] == d.data[..i]
        invariant chunks == d.rest
      {
        p[i] := d.data[i];
      }
    }
  }
}
