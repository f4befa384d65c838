/**
 The ring buffer of x/cyclic_buffer.go. Starting at `pos`, it always holds the last
 `capacity` bytes written, with zeros standing for bytes not written yet.
 */
module CyclicBuffer {
  import opened Bytes

  function Zeros(n: nat): (z: Bytes)
    ensures |z| == n
  {
    seq(n, _ => 0)
  }

  /** The last `n` bytes of `n` zeros followed by `s`. */
  function LastOf(s: Bytes, n: nat): (w: Bytes)
    ensures |w| == n
  {
    (Zeros(n) + s)[|s|..]
  }

  function Min(a: int, b: int): (m: int) {
    if a < b then a else b
  }

  /** The slot `i` places after `pos`. */
  function RingIndex(pos: nat, i: nat, l: nat): (p: nat)
    requires i <= l
  {
    if pos + i < l || l == 0 then pos + i else pos + i - l
  }

  /** The reading position after a step: back to the start when it passes the end. */
  function Wrapped(p: nat, l: nat): (q: nat)
    requires p <= l && l > 0
    ensures q == if p == l then 0 else p
  {
    if p >= l then p % l else p
  }

  lemma LastOfSnoc(s: Bytes, n: nat, x: byte)
    requires n > 0
    ensures LastOf(s + [x], n) == LastOf(s, n)[1..] + [x]
  {
    assert Zeros(n) + (s + [x]) == (Zeros(n) + s) + [x];
  }

  /** A write longer than the buffer may as well start with its last `n` bytes. */
  lemma LastOfSkip(s: Bytes, t: Bytes, n: nat)
    requires |t| >= n
    ensures LastOf(s + t, n) == t[|t| - n..]
  {
    assert Zeros(n) + (s + t) == (Zeros(n) + s) + t;
  }

  /** Overwriting the oldest byte and moving on shifts the window by one. */
  lemma Rotated(f: Bytes, i: nat, x: byte)
    requires i < |f|
    ensures var g, j := f[i := x], if i + 1 == |f| then 0 else i + 1;
            g[j..] + g[..j] == (f[i..] + f[..i])[1..] + [x]
  {
    var g := f[i := x];
    assert (f[i..] + f[..i])[1..] == f[i + 1..] + f[..i];
    assert g[i + 1..] == f[i + 1..] && g[..i + 1] == f[..i] + [x];
    if i + 1 == |f| {
      assert g[0..] + g[..0] == g[..i + 1];
    }
  }

  class CyclicBuffer {
    const buf: array<byte>
    var pos: nat
    var cnt: nat

    ghost var written: Bytes

    ghost function Window(): (w: Bytes)
      reads this, buf
      requires pos <= buf.Length
    {
      buf[pos..] + buf[..pos]
    }

    ghost predicate Valid()
      reads this, buf
    {
      && (if buf.Length == 0 then pos == 0 else pos < buf.Length)
      && cnt == |written|
      && Window() == LastOf(written, buf.Length)
    }

    constructor (capacity: nat)
      ensures Valid() && fresh(buf) && buf.Length == capacity && written == []
    {
      buf := new byte[capacity](_ => 0);
      pos, cnt, written := 0, 0, [];
      new;
      assert buf[..] == Zeros(capacity);
    }

    method Forward()
      requires pos < buf.Length
      modifies this`pos
      ensures pos == if old(pos) + 1 == buf.Length then 0 else old(pos) + 1
    {
      pos := pos + 1;
      if pos >= buf.Length {
        pos := 0;
      }
    }

    method Put(x: byte)
      requires pos < buf.Length
      modifies this`pos, buf
      ensures pos < buf.Length
      ensures Window() == old(Window())[1..] + [x]
    {
      ghost var f, i := buf[..], pos;
      assert buf[i..] == f[i..] && buf[..i] == f[..i];
      buf[pos] := x;
      Forward();
      ghost var g := buf[..];
      assert g == f[i := x];
      assert buf[pos..] == g[pos..] && buf[..pos] == g[..pos];
      Rotated(f, i, x);
    }

    /** The inner `write`: every byte of `data` from `offset` on, one by one. */
    method WriteFrom(data: Bytes, offset: nat, ghost before: Bytes)
      requires offset <= |data| && (if buf.Length == 0 then pos == 0 && offset == |data| else pos < buf.Length)
      requires Window() == LastOf(before, buf.Length)
      modifies this`pos, buf
      ensures if buf.Length == 0 then pos == 0 else pos < buf.Length
      ensures Window() == LastOf(before + data[offset..], buf.Length)
    {
      var i := offset;
      assert before + data[offset..i] == before;
      while i < |data|
        invariant offset <= i <= |data|
        invariant if buf.Length == 0 then pos == 0 && i == |data| else pos < buf.Length
        invariant Window() == LastOf(before + data[offset..i], buf.Length)
      {
        assert before + data[offset..i + 1] == (before + data[offset..i]) + [data[i]];
        LastOfSnoc(before + data[offset..i], buf.Length, data[i]);
        Put(data[i]);
        i := i + 1;
      }
      assert data[offset..i] == data[offset..];
    }

    /** `Write`: the buffer now ends with `data`, however long that is. */
    method Write(data: Bytes)
      requires Valid()
      modifies this, buf
      ensures Valid() && written == old(written) + data
    {
      var sz := |data|;
      if sz < 1 {
        assert written + data == written;
        return;
      }
      cnt := cnt + sz;
      var offset := sz - buf.Length;
      if offset < 0 {
        offset := 0;
      }
      WriteFrom(data, offset, written);
      if offset > 0 {
        LastOfSkip(written, data, buf.Length);
        LastOfSkip(written, data[offset..], buf.Length);
      } else {
        assert data[offset..] == data;
      }
      written := written + data;
    }

    /** `Dump`: copies out the bytes written so far that are still held, oldest first. */
    method Dump(data: array<byte>) returns (n: nat)
      requires Valid() && data != buf
      modifies data
      ensures data.Length < buf.Length ==> n == 0 && data[..] == old(data[..])
      ensures data.Length >= buf.Length ==>
                && n == Min(|written|, buf.Length) <= data.Length
                && data[..n] == written[|written| - n..]
    {
      hide LastOf, Zeros, Wrapped;
      var l := buf.Length;
      if data.Length < l {
        return 0;
      }
      var posRead := pos;
      n := 0;
      var skip := l - cnt;
      ghost var w := Window();
      ghost var k := if skip > 0 then skip else 0;
      for i := 0 to l
        invariant posRead == RingIndex(pos, i, l)
        invariant n == (if i < k then 0 else i - k)
        invariant skip == (if i < k then k - i else Min(l - cnt, 0))
        invariant buf[..] == old(buf[..])
        invariant forall j :: 0 <= j < n ==> data[j] == w[k + j]
      {
        assert w[i] == buf[posRead];
        if skip > 0 {
          skip := skip - 1;
        } else {
          data[n] := buf[posRead];
          n := n + 1;
        }
        posRead := Wrapped(posRead + 1, l);
      }
      assert data[..n] == w[k..];
      HeldBytes(written, l);
    }

    /** `Compare`: are the last bytes written, padded with zeros, exactly `data`? */
    method Compare(data: Bytes) returns (same: bool)
      requires Valid()
      ensures same <==> data == LastOf(written, buf.Length)
    {
      hide LastOf, Zeros, Wrapped;
      var l := buf.Length;
      if l != |data| {
        return false;
      }
      ghost var w := Window();
      var p := pos;
      for i := 0 to l
        invariant p == RingIndex(pos, i, l)
        invariant forall j :: 0 <= j < i ==> data[j] == w[j]
      {
        assert w[i] == buf[p];
        if data[i] != buf[p] {
          return false;
        }
        p := Wrapped(p + 1, l);
        if p == pos {
          assert i + 1 == l;
          break;
        }
      }
      assert data == w;
      return true;
    }
  }

  lemma HeldBytes(s: Bytes, n: nat)
    ensures var m := Min(|s|, n);
            LastOf(s, n)[n - m..] == s[|s| - m..]
  {
  }
}
