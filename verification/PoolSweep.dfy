/**
 The operations of the connection pool run without interference (x/pool.go), on the idle
 channel and the counter as fields. ConnectionPool has their interleavings.
 */
module PoolSweep {
  import opened Bytes

  datatype Conn = Conn(id: nat, lastUse: int)

  predicate Expired(c: Conn, now: int, timeout: int) {
    now - c.lastUse > timeout
  }

  /** How many of the oldest-first connections one sweep closes when `room` may go. */
  function Closed(idle: seq<Conn>, room: int, now: int, timeout: int): (k: nat)
    ensures k <= |idle|
    ensures k <= if room < 0 then 0 else room
    ensures forall i :: 0 <= i < k ==> Expired(idle[i], now, timeout)
    ensures k < |idle| && k < room ==> !Expired(idle[k], now, timeout)
  {
    if idle == [] || room <= 0 || !Expired(idle[0], now, timeout) then 0
    else 1 + Closed(idle[1..], room - 1, now, timeout)
  }

  /** What is left: a connection that was looked at and kept goes to the back. */
  function Swept(idle: seq<Conn>, room: int, now: int, timeout: int): (r: seq<Conn>) {
    var k := Closed(idle, room, now, timeout);
    if k < |idle| && k < room then idle[k + 1..] + [idle[k]] else idle[k..]
  }

  class BoundedPool {
    const capacity: nat
    const initial: nat
    var total: int
    var idle: seq<Conn>
    ghost var lent: nat

    ghost predicate Valid()
      reads this
    {
      initial <= capacity && total == |idle| + lent <= capacity
    }

    /** `NewBoundedPool` with every initial dial succeeding. */
    constructor (initial: nat, capacity: nat, now: int)
      requires initial <= capacity && capacity > 0
      ensures Valid() && this.initial == initial && this.capacity == capacity && total == initial && lent == 0
      ensures |idle| == initial && forall i :: 0 <= i < initial ==> idle[i] == Conn(i, now)
    {
      this.initial, this.capacity := initial, capacity;
      idle := seq(initial, (i: nat) => Conn(i, now));
      total := initial;
      lent := 0;
    }

    /** `Get`: the oldest idle connection, else a new one below the capacity, else nothing before the timeout. */
    method Get(dialled: Option<nat>, now: int) returns (c: Option<Conn>)
      requires Valid()
      modifies this
      ensures Valid() && lent == old(lent) + if c.Some? then 1 else 0
      ensures old(idle) != [] ==> c == Some(old(idle)[0]) && idle == old(idle)[1..]
      ensures old(idle) == [] ==> idle == [] && (c.Some? <==> old(lent) < capacity && dialled.Some?)
      ensures old(idle) == [] && c.Some? ==> c.value == Conn(dialled.value, now)
    {
      if |idle| > 0 {
        c := Some(idle[0]);
        idle, lent := idle[1..], lent + 1;
        return;
      }
      if total < capacity {
        total := total + 1;
        if dialled == None {
          total := total - 1;
          return None;
        }
        lent := lent + 1;
        return Some(Conn(dialled.value, now));
      }
      return None;
    }

    /** Closing a usable connection puts it back; the branch for a full channel is dead. */
    method Put(id: nat, now: int)
      requires Valid() && lent > 0
      modifies this
      ensures Valid() && idle == old(idle) + [Conn(id, now)] && lent == old(lent) - 1
    {
      lent := lent - 1;
      if |idle| < capacity {
        idle := idle + [Conn(id, now)];
      } else {
        assert false;
      }
    }

    method MarkUnusable()
      requires Valid() && lent > 0
      modifies this
      ensures Valid() && idle == old(idle) && lent == old(lent) - 1
    {
      lent, total := lent - 1, total - 1;
    }

    /**
     `checkOnce`: closes expired connections from the front while more than the initial
     number are counted. Here too the branch for a full channel is dead.
     */
    method CheckOnce(now: int, timeout: int)
      requires Valid()
      modifies this`idle, this`total
      ensures Valid()
      ensures idle == Swept(old(idle), old(total) - initial, now, timeout)
      ensures total == old(total) - Closed(old(idle), old(total) - initial, now, timeout)
    {
      hide Closed;
      ghost var was, room := idle, total - initial;
      ghost var k := 0;
      while total > initial && |idle| > 0
        invariant 0 <= k <= |was| && idle == was[k..] && total == old(total) - k
        invariant k <= Closed(was, room, now, timeout)
        decreases |idle|
      {
        var conn := idle[0];
        ClosedAt(was, room, now, timeout, k);
        idle := idle[1..];
        if now - conn.lastUse <= timeout {
          if |idle| < capacity {
            idle := idle + [conn];
          } else {
            assert false;
          }
          return;
        }
        k := k + 1;
        total := total - 1;
      }
    }
  }

  /**
   `NewBoundedPool`: no pool for senseless capacities or when one of the initial dials
   fails, and otherwise one with the initial connections.
   */
  method NewBoundedPool(initial: int, capacity: int, dials: seq<bool>, now: int) returns (pool: BoundedPool?)
    requires initial <= |dials|
    ensures pool != null <==> 0 <= initial <= capacity && capacity > 0 && forall i :: 0 <= i < initial ==> dials[i]
    ensures pool != null ==>
              && fresh(pool) && pool.Valid() && pool.total == initial && pool.lent == 0
              && pool.capacity == capacity && pool.initial == initial
  {
    if initial < 0 || capacity <= 0 || initial > capacity {
      return null;
    }
    for i := 0 to initial
      invariant forall k :: 0 <= k < i ==> dials[k]
    {
      if !dials[i] {
        return null;
      }
    }
    pool := new BoundedPool(initial, capacity, now);
  }

  lemma {:induction false} ClosedAt(idle: seq<Conn>, room: int, now: int, timeout: int, k: nat)
    requires k < |idle| && k < room && k <= Closed(idle, room, now, timeout)
    ensures k < Closed(idle, room, now, timeout) <==> Expired(idle[k], now, timeout)
  {
    if k > 0 {
      ClosedAt(idle[1..], room - 1, now, timeout, k - 1);
    }
  }

  ghost predicate OldestFirst(idle: seq<Conn>) {
    forall i, j :: 0 <= i < j < |idle| ==> idle[i].lastUse <= idle[j].lastUse
  }

  /** How many idle connections have not been used for longer than the timeout. */
  function ExpiredCount(idle: seq<Conn>, now: int, timeout: int): (n: nat)
    ensures n <= |idle|
  {
    if idle == [] then 0 else (if Expired(idle[0], now, timeout) then 1 else 0) + ExpiredCount(idle[1..], now, timeout)
  }

  lemma {:induction false} CountPrefix(idle: seq<Conn>, now: int, timeout: int)
    requires OldestFirst(idle)
    ensures forall i :: 0 <= i < |idle| ==> (Expired(idle[i], now, timeout) <==> i < ExpiredCount(idle, now, timeout))
  {
    if idle != [] {
      CountPrefix(idle[1..], now, timeout);
      var n := ExpiredCount(idle[1..], now, timeout);
      if n > 0 {
        assert Expired(idle[1..][0], now, timeout);
        assert idle[0].lastUse <= idle[1].lastUse;
      }
      forall i | 0 <= i < |idle|
        ensures Expired(idle[i], now, timeout) <==> i < ExpiredCount(idle, now, timeout)
      {
        assert i == 0 || idle[i] == idle[1..][i - 1];
      }
    }
  }

  /** In order of use, a sweep closes every expired connection that may go. */
  lemma ClosedIsCount(idle: seq<Conn>, room: int, now: int, timeout: int)
    requires OldestFirst(idle)
    ensures var n := ExpiredCount(idle, now, timeout);
            Closed(idle, room, now, timeout) == if room < 0 then 0 else if n < room then n else room
  {
    hide Closed, Expired;
    CountPrefix(idle, now, timeout);
    var k, n := Closed(idle, room, now, timeout), ExpiredCount(idle, now, timeout);
    assert n < |idle| ==> !Expired(idle[n], now, timeout);
    assert k < n ==> Expired(idle[k], now, timeout);
  }

  /** The sweep does not get to the connection: enough may not go, or one in front of it is kept. */
  ghost predicate Unreached(idle: seq<Conn>, room: int, now: int, timeout: int, i: nat)
    requires i < |idle|
  {
    i >= room || exists j :: 0 <= j < i && !Expired(idle[j], now, timeout)
  }

  lemma UnreachedExact(idle: seq<Conn>, room: int, now: int, timeout: int, i: nat)
    requires i < |idle| && Expired(idle[i], now, timeout)
    ensures Unreached(idle, room, now, timeout, i) <==> i >= Closed(idle, room, now, timeout)
  {
    hide Closed, Expired;
    var k := Closed(idle, room, now, timeout);
    if i >= k && k < room {
      assert !Expired(idle[k], now, timeout);
    }
  }

  lemma SweptMember(idle: seq<Conn>, room: int, now: int, timeout: int, c: Conn)
    ensures c in Swept(idle, room, now, timeout) <==> c in idle[Closed(idle, room, now, timeout)..]
  {
    hide Closed;
    var k := Closed(idle, room, now, timeout);
    if k < |idle| {
      assert idle[k..] == [idle[k]] + idle[k + 1..];
    }
  }

  /**
   In any list a sweep leaves an expired connection exactly when there is one that it does not
   get to. In order of use, that is when more are expired than may go.
   */
  lemma SweepLeavesExact(idle: seq<Conn>, room: int, now: int, timeout: int)
    ensures (exists c :: c in Swept(idle, room, now, timeout) && Expired(c, now, timeout)) <==>
      exists i :: 0 <= i < |idle| && Expired(idle[i], now, timeout) && Unreached(idle, room, now, timeout, i)
    ensures OldestFirst(idle) ==>
      ((exists c :: c in Swept(idle, room, now, timeout) && Expired(c, now, timeout)) <==>
         ExpiredCount(idle, now, timeout) > if room < 0 then 0 else room)
  {
    hide Closed, Expired, Unreached, Swept, ExpiredCount;
    var k := Closed(idle, room, now, timeout);
    forall i | 0 <= i < |idle| && Expired(idle[i], now, timeout)
      ensures Unreached(idle, room, now, timeout, i) <==> i >= k
      ensures i >= k ==> idle[i] in Swept(idle, room, now, timeout)
    {
      UnreachedExact(idle, room, now, timeout, i);
      SweptMember(idle, room, now, timeout, idle[i]);
      assert i >= k ==> idle[k..][i - k] == idle[i];
    }
    forall c | c in Swept(idle, room, now, timeout) ensures exists i :: k <= i < |idle| && idle[i] == c {
      SweptMember(idle, room, now, timeout, c);
      var i :| 0 <= i < |idle[k..]| && idle[k..][i] == c;
      assert idle[k + i] == c;
    }
    if OldestFirst(idle) {
      ClosedIsCount(idle, room, now, timeout);
      CountPrefix(idle, now, timeout);
      if k < ExpiredCount(idle, now, timeout) {
        assert Expired(idle[k], now, timeout) && idle[k] in Swept(idle, room, now, timeout);
      }
    }
  }

  lemma RotateExact(idle: seq<Conn>, k: nat)
    requires OldestFirst(idle) && k < |idle|
    ensures OldestFirst(idle[k + 1..] + [idle[k]]) <==> idle[k].lastUse == idle[|idle| - 1].lastUse
  {
    var r := idle[k + 1..] + [idle[k]];
    var n := |r| - 1;
    if n > 0 {
      assert r[n - 1] == idle[|idle| - 1] && r[n] == idle[k];
      assert forall i :: 0 <= i < n ==> r[i] == idle[k + 1 + i];
    }
  }

  /**
   A sweep keeps that order exactly when it keeps nothing it looked at, or that connection
   was last used together with the newest one.
   */
  lemma SweepKeepsOrderExact(idle: seq<Conn>, room: int, now: int, timeout: int)
    requires OldestFirst(idle)
    ensures var n := ExpiredCount(idle, now, timeout);
            OldestFirst(Swept(idle, room, now, timeout)) <==>
              (n < |idle| && n < room ==> idle[n].lastUse == idle[|idle| - 1].lastUse)
  {
    hide Closed, ExpiredCount;
    ClosedIsCount(idle, room, now, timeout);
    var k := Closed(idle, room, now, timeout);
    if k < |idle| && k < room {
      RotateExact(idle, k);
    }
  }

  /** Two sweeps in a row can therefore leave an expired connection although more than enough are open. */
  lemma SecondSweepCanMiss()
    ensures exists idle, timeout, first, second, c ::
              && OldestFirst(idle) && first <= second
              && var after := Swept(Swept(idle, 2, first, timeout), 2, second, timeout);
                 && |after| == 2 && c in after && Expired(c, second, timeout)
  {
    var a, b := Conn(0, 10), Conn(1, 11);
    var idle := [a, b];
    assert Closed(idle, 2, 12, 5) == 0;
    assert Swept(idle, 2, 12, 5) == [b, a];
    assert Closed([b, a], 2, 16, 5) == 0;
    assert Swept([b, a], 2, 16, 5) == [a, b];
    assert a in [a, b] && Expired(a, 16, 5);
  }
}
