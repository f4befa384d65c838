/**
 The bounded connection pool under interleaving (x/pool.go). Every atomic operation of
 `Get`, `put`, `MarkUnusable`, `close` and the idle checker is one step; any number of
 goroutines run at once. `leaked` and `stale` are history counters the code does not keep.
 */
module ConnectionPool {
  // ---------- goroutines ----------

  datatype Client =
    | Out                                   // not inside the pool's code
    | Missed                                // found no idle connection
    | MayAdd                                // read a counter below the capacity
    | Dialling                              // its increment stayed within the capacity
    | Waiting                               // blocked until a connection is free or time runs out
    | Borrowed(conn: nat, unusable: bool)   // holds a wrapper
    | Returning(conn: nat)                  // inside `put`
    | Dropping(conn: nat)                   // `put` found the channel full

  datatype Checker = Off | Taking | Holding(conn: nat)

  datatype Pool = Pool(
    capacity: nat,
    initial: nat,
    total: int,
    idle: seq<nat>,
    clients: seq<Client>,
    checker: Checker,
    next: nat,      // names for new connections
    wrecks: nat,    // wrappers closed while usable: marking one now changes the counter
    leaked: nat,    // increments that lost the race and were never taken back
    stale: nat      // decrements made through a wrapper that was already closed
  )

  // ---------- counting connections ----------

  /** Whether a goroutine holds, or is about to get, a usable connection. */
  function Weight(c: Client): (w: nat)
    ensures w <= 1
  {
    if c.Dialling? || (c.Borrowed? && !c.unusable) || c.Returning? || c.Dropping? then 1 else 0
  }

  function Weights(cs: seq<Client>): (w: nat) {
    if cs == [] then 0 else Weights(cs[..|cs| - 1]) + Weight(cs[|cs| - 1])
  }

  function Kept(k: Checker): (w: nat) {
    if k.Holding? then 1 else 0
  }

  /** Idle, borrowed, in transit, being dialled. */
  function Live(p: Pool): (n: nat) {
    |p.idle| + Weights(p.clients) + Kept(p.checker)
  }

  lemma {:induction false} WeightsUpdate(cs: seq<Client>, i: nat, c: Client)
    requires i < |cs|
    ensures Weights(cs[i := c]) == Weights(cs) - Weight(cs[i]) + Weight(c)
  {
    var n := |cs| - 1;
    if i < n {
      WeightsUpdate(cs[..n], i, c);
      assert cs[i := c][..n] == cs[..n][i := c];
    } else {
      assert cs[i := c][..n] == cs[..n];
    }
  }

  lemma {:induction false} WeightsAt(cs: seq<Client>, i: nat)
    requires i < |cs|
    ensures Weight(cs[i]) <= Weights(cs)
  {
    var n := |cs| - 1;
    if i < n {
      WeightsAt(cs[..n], i);
    }
  }

  // ---------- who has which connection ----------

  function Has(c: Client, x: nat): (n: nat) {
    if (c.Borrowed? || c.Returning? || c.Dropping?) && c.conn == x then 1 else 0
  }

  function Held(cs: seq<Client>, x: nat): (n: nat) {
    if cs == [] then 0 else Held(cs[..|cs| - 1], x) + Has(cs[|cs| - 1], x)
  }

  function CheckerHas(k: Checker, x: nat): (n: nat) {
    if k.Holding? && k.conn == x then 1 else 0
  }

  function Count(idle: seq<nat>, x: nat): (n: nat) {
    multiset(idle)[x]
  }

  lemma CountHead(idle: seq<nat>, x: nat)
    requires idle != []
    ensures Count(idle, x) == Count(idle[1..], x) + if idle[0] == x then 1 else 0
  {
    assert idle == [idle[0]] + idle[1..];
  }

  lemma CountSnoc(idle: seq<nat>, c: nat, x: nat)
    ensures Count(idle + [c], x) == Count(idle, x) + if c == x then 1 else 0
  {
  }

  /** In how many places a connection is. */
  function Places(p: Pool, x: nat): (n: nat) {
    Count(p.idle, x) + Held(p.clients, x) + CheckerHas(p.checker, x)
  }

  lemma {:induction false} HeldUpdate(cs: seq<Client>, i: nat, c: Client, x: nat)
    requires i < |cs|
    ensures Held(cs[i := c], x) == Held(cs, x) - Has(cs[i], x) + Has(c, x)
  {
    var n := |cs| - 1;
    if i < n {
      HeldUpdate(cs[..n], i, c, x);
      assert cs[i := c][..n] == cs[..n][i := c];
    } else {
      assert cs[i := c][..n] == cs[..n];
    }
  }

  lemma {:induction false} HeldAt(cs: seq<Client>, i: nat, x: nat)
    requires i < |cs|
    ensures Has(cs[i], x) <= Held(cs, x)
  {
    var n := |cs| - 1;
    if i < n {
      HeldAt(cs[..n], i, x);
    }
  }

  lemma {:induction false} HeldTwo(cs: seq<Client>, i: nat, j: nat, x: nat)
    requires i < j < |cs|
    ensures Has(cs[i], x) + Has(cs[j], x) <= Held(cs, x)
  {
    var n := |cs| - 1;
    if j < n {
      HeldTwo(cs[..n], i, j, x);
    } else {
      HeldAt(cs[..n], i, x);
    }
  }

  // ---------- steps ----------

  datatype Event =
    | TryReceive(t: nat) | Load(t: nat) | Add(t: nat) | DialOk(t: nat) | DialFail(t: nat)
    | WaitReceive(t: nat) | WaitTimeout(t: nat)
    | MarkUnusable(t: nat) | CloseConn(t: nat) | Put(t: nat) | Drop(t: nat)
    | StaleMark
    | CheckGuard | CheckTake | CheckKeep | CheckExpire

  predicate ByClient(e: Event) {
    !e.StaleMark? && !e.CheckGuard? && !e.CheckTake? && !e.CheckKeep? && !e.CheckExpire?
  }

  predicate Enabled(p: Pool, e: Event) {
    (ByClient(e) ==> e.t < |p.clients|) &&
    match e
    case TryReceive(t) => p.clients[t].Out?
    case Load(t) => p.clients[t].Missed?
    case Add(t) => p.clients[t].MayAdd?
    case DialOk(t) => p.clients[t].Dialling?
    case DialFail(t) => p.clients[t].Dialling?
    case WaitReceive(t) => p.clients[t].Waiting? && p.idle != []
    case WaitTimeout(t) => p.clients[t].Waiting?
    case MarkUnusable(t) => p.clients[t].Borrowed?
    case CloseConn(t) => p.clients[t].Borrowed?
    case Put(t) => p.clients[t].Returning?
    case Drop(t) => p.clients[t].Dropping?
    case StaleMark => p.wrecks > 0
    case CheckGuard => p.checker.Off? && p.total > p.initial && p.idle != []
    case CheckTake => p.checker.Taking?
    case CheckKeep => p.checker.Holding?
    case CheckExpire => p.checker.Holding?
  }

  function At(p: Pool, t: nat, c: Client): (q: Pool)
    requires t < |p.clients|
  {
    p.(clients := p.clients[t := c])
  }

  function Step(p: Pool, e: Event): (q: Pool)
    requires Enabled(p, e)
  {
    match e
    case TryReceive(t) =>
      if p.idle == [] then At(p, t, Missed)
      else At(p, t, Borrowed(p.idle[0], false)).(idle := p.idle[1..])
    case Load(t) => At(p, t, if p.total < p.capacity then MayAdd else Waiting)
    case Add(t) =>
      if p.total + 1 <= p.capacity then At(p, t, Dialling).(total := p.total + 1)
      else At(p, t, Waiting).(total := p.total + 1, leaked := p.leaked + 1)
    case DialOk(t) => At(p, t, Borrowed(p.next, false)).(next := p.next + 1)
    case DialFail(t) => At(p, t, Out).(total := p.total - 1)
    case WaitReceive(t) => At(p, t, Borrowed(p.idle[0], false)).(idle := p.idle[1..])
    case WaitTimeout(t) => At(p, t, Out)
    case MarkUnusable(t) =>
      if p.clients[t].unusable then p
      else At(p, t, Borrowed(p.clients[t].conn, true)).(total := p.total - 1)
    case CloseConn(t) =>
      if p.clients[t].unusable then At(p, t, Out)
      else At(p, t, Returning(p.clients[t].conn)).(wrecks := p.wrecks + 1)
    case Put(t) =>
      if |p.idle| < p.capacity then At(p, t, Out).(idle := p.idle + [p.clients[t].conn])
      else At(p, t, Dropping(p.clients[t].conn))
    case Drop(t) => At(p, t, Out).(total := p.total - 1)
    case StaleMark => p.(total := p.total - 1, wrecks := p.wrecks - 1, stale := p.stale + 1)
    case CheckGuard => p.(checker := Taking)
    case CheckTake =>
      if p.idle == [] then p.(checker := Off)
      else p.(checker := Holding(p.idle[0]), idle := p.idle[1..])
    case CheckKeep =>
      if |p.idle| < p.capacity then p.(checker := Off, idle := p.idle + [p.checker.conn])
      else p.(checker := Off, total := p.total - 1)
    case CheckExpire => p.(checker := Off, total := p.total - 1)
  }

  // ---------- invariants ----------

  /** The counter is exact up to the two kinds of error, and the capacity bounds the connections. */
  ghost predicate Counts(p: Pool) {
    && p.total == Live(p) + p.leaked - p.stale
    && Live(p) <= p.capacity + p.stale
    && |p.idle| <= p.capacity
  }

  /** Every open connection is in one place. */
  ghost predicate Owned(p: Pool) {
    forall x: nat :: Places(p, x) <= (if x < p.next then 1 else 0)
  }

  ghost predicate Inv(p: Pool) {
    Counts(p) && Owned(p)
  }

  lemma CountsByClient(p: Pool, e: Event)
    requires Counts(p) && Enabled(p, e) && ByClient(e)
    ensures Counts(Step(p, e))
  {
    hide Weights;
    WeightsUpdate(p.clients, e.t, Step(p, e).clients[e.t]);
  }

  lemma CountsByChecker(p: Pool, e: Event)
    requires Counts(p) && Enabled(p, e) && !ByClient(e)
    ensures Counts(Step(p, e))
  {
    hide Weights;
  }

  lemma CountsKept(p: Pool, e: Event)
    requires Counts(p) && Enabled(p, e)
    ensures Counts(Step(p, e))
  {
    hide Counts, Enabled, Step;
    if ByClient(e) {
      CountsByClient(p, e);
    } else {
      CountsByChecker(p, e);
    }
  }

  lemma PlacesStep(p: Pool, e: Event, x: nat)
    requires Enabled(p, e)
    ensures Places(Step(p, e), x) <= Places(p, x) + if e.DialOk? && x == p.next then 1 else 0
  {
    hide Held, Count, Weights;
    var q := Step(p, e);
    if p.idle != [] {
      CountHead(p.idle, x);
    }
    if ByClient(e) {
      HeldUpdate(p.clients, e.t, q.clients[e.t], x);
      if e.Put? {
        CountSnoc(p.idle, p.clients[e.t].conn, x);
      }
    } else if e.CheckKeep? {
      CountSnoc(p.idle, p.checker.conn, x);
    }
  }

  lemma OwnedKept(p: Pool, e: Event)
    requires Owned(p) && Enabled(p, e)
    ensures Owned(Step(p, e))
  {
    hide Places;
    forall x: nat ensures Places(Step(p, e), x) <= (if x < Step(p, e).next then 1 else 0) {
      PlacesStep(p, e, x);
    }
  }

  lemma StepKeepsInv(p: Pool, e: Event)
    requires Inv(p) && Enabled(p, e)
    ensures Inv(Step(p, e))
  {
    CountsKept(p, e);
    OwnedKept(p, e);
  }

  // ---------- runs ----------

  predicate IsRun(p: Pool, es: seq<Event>)
    decreases |es|
  {
    es == [] || (Enabled(p, es[0]) && IsRun(Step(p, es[0]), es[1..]))
  }

  function Run(p: Pool, es: seq<Event>): (q: Pool)
    requires IsRun(p, es)
    decreases |es|
  {
    if es == [] then p else Run(Step(p, es[0]), es[1..])
  }

  predicate NoStaleMark(es: seq<Event>) {
    forall e :: e in es ==> !e.StaleMark?
  }

  /** `NewBoundedPool`, with its initial connections dialled, and `n` goroutines around it. */
  function Start(capacity: nat, initial: nat, n: nat): (p: Pool)
    requires initial <= capacity
  {
    Pool(capacity, initial, initial, seq(initial, i => i), seq(n, i => Out), Off, initial, 0, 0, 0)
  }

  lemma {:induction false} AllOut(cs: seq<Client>, x: nat)
    requires forall i :: 0 <= i < |cs| ==> cs[i] == Out
    ensures Weights(cs) == 0 && Held(cs, x) == 0
  {
    if cs != [] {
      AllOut(cs[..|cs| - 1], x);
    }
  }

  lemma {:induction false} CountFirst(n: nat, x: nat)
    ensures Count(seq(n, i => i), x) == if x < n then 1 else 0
  {
    if n > 0 {
      CountFirst(n - 1, x);
      assert seq(n, i => i) == seq(n - 1, i => i) + [n - 1];
      CountSnoc(seq(n - 1, i => i), n - 1, x);
    }
  }

  lemma StartInv(capacity: nat, initial: nat, n: nat)
    requires initial <= capacity
    ensures Inv(Start(capacity, initial, n))
  {
    hide Weights, Held, Count;
    var p := Start(capacity, initial, n);
    AllOut(p.clients, 0);
    forall x: nat ensures Places(p, x) <= (if x < p.next then 1 else 0) {
      AllOut(p.clients, x);
      CountFirst(initial, x);
    }
  }

  lemma {:induction false} RunKeepsInv(p: Pool, es: seq<Event>)
    requires Inv(p) && IsRun(p, es)
    ensures Inv(Run(p, es)) && Run(p, es).capacity == p.capacity
    ensures Run(p, es).leaked >= p.leaked && Run(p, es).stale >= p.stale
    ensures NoStaleMark(es) ==> Run(p, es).stale == p.stale
    decreases |es|
  {
    hide Inv;
    if es != [] {
      StepKeepsInv(p, es[0]);
      RunKeepsInv(Step(p, es[0]), es[1..]);
    }
  }

  /** Every interleaving from a new pool: the connections never exceed the capacity by more than the stale marks. */
  lemma PoolBound(capacity: nat, initial: nat, n: nat, es: seq<Event>)
    requires initial <= capacity && IsRun(Start(capacity, initial, n), es)
    ensures var p := Run(Start(capacity, initial, n), es);
            Live(p) <= capacity + p.stale && p.total == Live(p) + p.leaked - p.stale
    ensures NoStaleMark(es) ==> Live(Run(Start(capacity, initial, n), es)) <= capacity
  {
    hide Live, IsRun, Run;
    StartInv(capacity, initial, n);
    RunKeepsInv(Start(capacity, initial, n), es);
  }

  /** Without stale marks a returned connection always finds room. */
  lemma ReturnFindsRoom(p: Pool, t: nat)
    requires Inv(p) && p.stale == 0 && t < |p.clients| && p.clients[t].Returning?
    ensures |p.idle| < p.capacity
    ensures Step(p, Put(t)).clients[t] == Out && Step(p, Put(t)).idle == p.idle + [p.clients[t].conn]
  {
    WeightsAt(p.clients, t);
  }

  /** The same holds for the idle checker putting one back. */
  lemma CheckerFindsRoom(p: Pool)
    requires Inv(p) && p.stale == 0 && p.checker.Holding?
    ensures |p.idle| < p.capacity && Step(p, CheckKeep).total == p.total
  {
    hide Weights;
    assert Live(p) >= |p.idle| + 1;
  }

  predicate Holds(c: Client) {
    c.Borrowed? || c.Returning? || c.Dropping?
  }

  /** A connection that a client holds is in no other hand, not with the idle checker, and not idle. */
  lemma ExclusiveUse(p: Pool, i: nat)
    requires Inv(p) && i < |p.clients| && Holds(p.clients[i])
    ensures p.clients[i].conn !in p.idle && p.checker != Holding(p.clients[i].conn)
    ensures forall j :: 0 <= j < |p.clients| && j != i && Holds(p.clients[j]) ==> p.clients[j].conn != p.clients[i].conn
  {
    hide Held;
    var x := p.clients[i].conn;
    HeldAt(p.clients, i, x);
    assert Places(p, x) <= 1;
    forall j | 0 <= j < |p.clients| && j != i && Holds(p.clients[j]) ensures p.clients[j].conn != x {
      if i < j {
        HeldTwo(p.clients, i, j, x);
      } else {
        HeldTwo(p.clients, j, i, x);
      }
    }
  }

  // ---------- lost races ----------

  /** What lost races leave of the capacity. */
  function Usable(p: Pool): (n: int) {
    p.capacity - p.leaked + p.stale
  }

  lemma UsableStep(p: Pool, e: Event)
    requires Counts(p) && Enabled(p, e) && !e.StaleMark?
    ensures Usable(Step(p, e)) <= Usable(p)
    ensures Live(Step(p, e)) <= Live(p) || Live(Step(p, e)) <= Usable(p)
  {
    hide Weights;
    if ByClient(e) {
      WeightsUpdate(p.clients, e.t, Step(p, e).clients[e.t]);
    }
  }

  /** Without stale marks no run gets more connections than there are, or than the lost races leave room for. */
  lemma {:induction false} LostRacesShrink(p: Pool, es: seq<Event>)
    requires Inv(p) && IsRun(p, es) && NoStaleMark(es)
    ensures Live(Run(p, es)) <= Live(p) || Live(Run(p, es)) <= Usable(p)
    decreases |es|
  {
    hide Inv, Usable, Live;
    if es != [] {
      assert es[0] in es;
      InvCounts(p);
      UsableStep(p, es[0]);
      StepKeepsInv(p, es[0]);
      LostRacesShrink(Step(p, es[0]), es[1..]);
    }
  }

  lemma InvCounts(p: Pool)
    requires Inv(p)
    ensures Counts(p)
  {
  }

  lemma TotalStep(p: Pool, e: Event)
    requires Enabled(p, e) && !e.Add?
    ensures Step(p, e).total <= p.total && Step(p, e).capacity == p.capacity
  {
  }

  lemma {:induction false} RoomUnlessAdded(p: Pool, es: seq<Event>)
    requires IsRun(p, es) && p.total < p.capacity && Run(p, es).total >= Run(p, es).capacity
    ensures exists e :: e in es && e.Add?
    decreases |es|
  {
    if es != [] && !es[0].Add? {
      TotalStep(p, es[0]);
      RoomUnlessAdded(Step(p, es[0]), es[1..]);
      var e :| e in es[1..] && e.Add?;
      assert e in es;
    } else if es != [] {
      assert es[0] in es;
    }
  }

  lemma {:induction false} ClientStays(p: Pool, es: seq<Event>, t: nat)
    requires IsRun(p, es) && t < |p.clients| && forall e :: e in es ==> !(ByClient(e) && e.t == t)
    ensures t < |Run(p, es).clients| && Run(p, es).clients[t] == p.clients[t]
    decreases |es|
  {
    if es != [] {
      assert es[0] in es;
      ClientStays(Step(p, es[0]), es[1..], t);
    }
  }

  /** An increment is lost only to a winner: another client added between the two looks at the counter. */
  lemma LostRaceHasWinner(p: Pool, t: nat, es: seq<Event>)
    requires Enabled(p, Load(t)) && IsRun(Step(p, Load(t)), es) && forall e :: e in es ==> !(ByClient(e) && e.t == t)
    requires var q := Run(Step(p, Load(t)), es); Enabled(q, Add(t)) && Step(q, Add(t)).leaked > q.leaked
    ensures exists e :: e in es && e.Add?
  {
    hide Run, IsRun;
    ClientStays(Step(p, Load(t)), es, t);
    RoomUnlessAdded(Step(p, Load(t)), es);
  }

  // ---------- the idle checker ----------

  predicate ByChecker(e: Event) {
    e.CheckGuard? || e.CheckTake? || e.CheckKeep? || e.CheckExpire?
  }

  /** Left alone, the idle checker closes no connection that the initial number needs. */
  lemma {:induction false} CheckerKeepsInitial(p: Pool, es: seq<Event>)
    requires IsRun(p, es) && forall e :: e in es ==> ByChecker(e)
    requires p.total >= p.initial && (!p.checker.Off? ==> p.total > p.initial)
    ensures Run(p, es).total >= p.initial
    decreases |es|
  {
    if es != [] {
      assert es[0] in es;
      CheckerKeepsInitial(Step(p, es[0]), es[1..]);
    }
  }

  // ---------- building runs ----------

  lemma RunCons(p: Pool, e: Event, es: seq<Event>)
    requires Enabled(p, e) && IsRun(Step(p, e), es)
    ensures IsRun(p, [e] + es) && Run(p, [e] + es) == Run(Step(p, e), es)
  {
    assert ([e] + es)[1..] == es;
  }

  /** Two goroutines around a pool of capacity one. */
  function TwoClients(initial: nat, total: int, idle: seq<nat>, a: Client, b: Client, next: nat, wrecks: nat,
                      leaked: nat, stale: nat): (p: Pool)
  {
    Pool(1, initial, total, idle, [a, b], Off, next, wrecks, leaked, stale)
  }

  lemma Moved(p: Pool, e: Event)
    requires |p.clients| == 2 && Enabled(p, e) && ByClient(e)
    ensures Step(p, e).clients == if e.t == 0 then [Step(p, e).clients[0], p.clients[1]] else [p.clients[0], Step(p, e).clients[1]]
  {
  }

  lemma WeightsPair(cs: seq<Client>)
    requires |cs| == 2
    ensures Weights(cs) == Weight(cs[0]) + Weight(cs[1])
  {
    assert cs[..1][..0] == [];
    assert Weights(cs[..1]) == Weights(cs[..1][..0]) + Weight(cs[..1][0]);
  }

  // A client returns the connection, marks it once more, and takes it again; another client then dials.
  const S_0 := TwoClients(1, 1, [0], Out, Out, 1, 0, 0, 0)
  const S_1 := TwoClients(1, 1, [], Borrowed(0, false), Out, 1, 0, 0, 0)
  const S_2 := TwoClients(1, 1, [], Returning(0), Out, 1, 1, 0, 0)
  const S_3 := TwoClients(1, 1, [0], Out, Out, 1, 1, 0, 0)
  const S_4 := TwoClients(1, 0, [0], Out, Out, 1, 0, 0, 1)
  const S_5 := TwoClients(1, 0, [], Borrowed(0, false), Out, 1, 0, 0, 1)
  const S_6 := TwoClients(1, 0, [], Borrowed(0, false), Missed, 1, 0, 0, 1)
  const S_7 := TwoClients(1, 0, [], Borrowed(0, false), MayAdd, 1, 0, 0, 1)
  const S_8 := TwoClients(1, 1, [], Borrowed(0, false), Dialling, 1, 0, 0, 1)

  lemma StaleHops1()
    ensures Enabled(S_0, TryReceive(0)) && Step(S_0, TryReceive(0)) == S_1
    ensures Enabled(S_1, CloseConn(0)) && Step(S_1, CloseConn(0)) == S_2
  {
    Moved(S_0, TryReceive(0));
    Moved(S_1, CloseConn(0));
  }

  lemma StaleHops2()
    ensures Enabled(S_2, Put(0)) && Step(S_2, Put(0)) == S_3
    ensures Enabled(S_3, StaleMark) && Step(S_3, StaleMark) == S_4
  {
    Moved(S_2, Put(0));
  }

  lemma StaleHops3()
    ensures Enabled(S_4, TryReceive(0)) && Step(S_4, TryReceive(0)) == S_5
    ensures Enabled(S_5, TryReceive(1)) && Step(S_5, TryReceive(1)) == S_6
  {
    Moved(S_4, TryReceive(0));
    Moved(S_5, TryReceive(1));
  }

  lemma StaleHops4()
    ensures Enabled(S_6, Load(1)) && Step(S_6, Load(1)) == S_7
    ensures Enabled(S_7, Add(1)) && Step(S_7, Add(1)) == S_8
  {
    Moved(S_6, Load(1));
    Moved(S_7, Add(1));
  }

  lemma StaleMarkBreaksBound()
    ensures exists es :: IsRun(Start(1, 1, 2), es) && Live(Run(Start(1, 1, 2), es)) == 2
  {
    hide Live, Run, IsRun, Step, Enabled;
    assert seq(1, i => i) == [0];
    assert seq(2, i => Out) == [Out, Out];
    StaleHops1();
    StaleHops2();
    StaleHops3();
    StaleHops4();
    NoEvents(S_8);
    var es := [];
    RunCons(S_7, Add(1), es);
    es := [Add(1)] + es;
    RunCons(S_6, Load(1), es);
    es := [Load(1)] + es;
    RunCons(S_5, TryReceive(1), es);
    es := [TryReceive(1)] + es;
    RunCons(S_4, TryReceive(0), es);
    es := [TryReceive(0)] + es;
    RunCons(S_3, StaleMark, es);
    es := [StaleMark] + es;
    RunCons(S_2, Put(0), es);
    es := [Put(0)] + es;
    RunCons(S_1, CloseConn(0), es);
    es := [CloseConn(0)] + es;
    RunCons(S_0, TryReceive(0), es);
    es := [TryReceive(0)] + es;
    LiveSum(S_8);
    WeightsPair(S_8.clients);
    assert Start(1, 1, 2) == S_0;
  }

  lemma NoEvents(p: Pool)
    ensures IsRun(p, []) && Run(p, []) == p
  {
  }

  // ---------- starvation ----------

  /** No connection is left and the counter says the pool is full. */
  ghost predicate Starved(p: Pool) {
    Live(p) == 0 && p.total >= p.capacity
  }

  lemma StarvedStep(p: Pool, e: Event)
    requires Starved(p) && Enabled(p, e) && !e.StaleMark?
    ensures Starved(Step(p, e))
  {
    hide Weights;
    if ByClient(e) {
      WeightsAt(p.clients, e.t);
      WeightsUpdate(p.clients, e.t, Step(p, e).clients[e.t]);
    }
  }

  lemma {:induction false} StarvedForever(p: Pool, es: seq<Event>)
    requires Starved(p) && IsRun(p, es) && NoStaleMark(es)
    ensures Starved(Run(p, es))
    decreases |es|
  {
    hide Starved;
    if es != [] {
      assert es[0] in es;
      StarvedStep(p, es[0]);
      StarvedForever(Step(p, es[0]), es[1..]);
    }
  }

  /** From a state without connections, one client can always dial while the counter is below the capacity. */
  lemma DialFrom(p: Pool) returns (es: seq<Event>)
    requires Live(p) == 0 && p.total < p.capacity && p.clients != []
    ensures IsRun(p, es) && NoStaleMark(es) && Live(Run(p, es)) > 0
    decreases match p.clients[0] case MayAdd => 0 case Missed => 1 case Out => 2 case _ => 3
  {
    hide Live, Run, IsRun, Weights;
    WeightsAt(p.clients, 0);
    LiveZero(p);
    var c := p.clients[0];
    var e := if c.MayAdd? then Add(0) else if c.Missed? then Load(0) else if c.Out? then TryReceive(0)
             else if c.Waiting? then WaitTimeout(0) else CloseConn(0);
    var q := Step(p, e);
    WeightsUpdate(p.clients, 0, q.clients[0]);
    if e.Add? {
      es := [];
      NoEvents(q);
      LivePositive(q);
    } else {
      LiveSum(q);
      es := DialFrom(q);
    }
    RunCons(p, e, es);
    es := [e] + es;
  }

  lemma LiveZero(p: Pool)
    requires Live(p) == 0
    ensures p.idle == [] && Weights(p.clients) == 0 && !p.checker.Holding?
  {
  }

  lemma LiveSum(p: Pool)
    ensures Live(p) == |p.idle| + Weights(p.clients) + Kept(p.checker)
  {
  }

  lemma LivePositive(p: Pool)
    requires Weights(p.clients) > 0
    ensures Live(p) > 0
  {
  }

  /** A pool without connections recovers, without a stale mark, exactly when the counter is below the capacity. */
  lemma RecoversExact(p: Pool)
    requires Live(p) == 0 && p.clients != []
    ensures (exists es :: IsRun(p, es) && NoStaleMark(es) && Live(Run(p, es)) > 0) <==> p.total < p.capacity
  {
    hide Live, Run, IsRun;
    if p.total < p.capacity {
      var es := DialFrom(p);
    }
    forall es | IsRun(p, es) && NoStaleMark(es) && p.total >= p.capacity ensures Live(Run(p, es)) == 0 {
      StarvedForever(p, es);
    }
  }

  // Twice as many clients as connections all find room, half of them lose the race, and the others cannot dial.

  function Phase(c: nat, total: int, leaked: nat, state: nat -> Client): (p: Pool) {
    Pool(c, 0, total, [], seq(2 * c, i requires 0 <= i < 2 * c => state(i)), Off, 0, 0, leaked, 0)
  }

  function Look(c: nat, k: nat): (p: Pool) {
    Phase(c, 0, 0, i => if i < k then Missed else Out)
  }

  function Find(c: nat, k: nat): (p: Pool) {
    Phase(c, 0, 0, i => if i < k then MayAdd else Missed)
  }

  function Win(c: nat, k: nat): (p: Pool) {
    Phase(c, k, 0, i => if i < k then Dialling else MayAdd)
  }

  function Lose(c: nat, k: nat): (p: Pool) {
    Phase(c, c + k, k, i => if i < c then Dialling else if i < c + k then Waiting else MayAdd)
  }

  function Fail(c: nat, k: nat): (p: Pool) {
    Phase(c, 2 * c - k, c, i => if i < k then Out else if i < c then Dialling else Waiting)
  }

  /** The clients move one after the other. */
  function RaceAt(c: nat, j: nat): (p: Pool) {
    if j < 2 * c then Look(c, j)
    else if j < 4 * c then Find(c, j - 2 * c)
    else if j < 5 * c then Win(c, j - 4 * c)
    else if j < 6 * c then Lose(c, j - 5 * c)
    else Fail(c, j - 6 * c)
  }

  function RaceEvent(c: nat, j: nat): (e: Event)
    requires j < 7 * c
  {
    if j < 2 * c then TryReceive(j)
    else if j < 4 * c then Load(j - 2 * c)
    else if j < 6 * c then Add(j - 4 * c)
    else DialFail(j - 6 * c)
  }

  lemma LookStep(c: nat, k: nat)
    requires k < 2 * c
    ensures Enabled(Look(c, k), TryReceive(k)) && Step(Look(c, k), TryReceive(k)) == Look(c, k + 1)
    ensures Look(c, 2 * c) == Find(c, 0)
  {
    assert Step(Look(c, k), TryReceive(k)).clients == Look(c, k + 1).clients;
    assert Look(c, 2 * c).clients == Find(c, 0).clients;
  }

  lemma FindStep(c: nat, k: nat)
    requires k < 2 * c
    ensures Enabled(Find(c, k), Load(k)) && Step(Find(c, k), Load(k)) == Find(c, k + 1)
    ensures Find(c, 2 * c) == Win(c, 0)
  {
    assert Step(Find(c, k), Load(k)).clients == Find(c, k + 1).clients;
    assert Find(c, 2 * c).clients == Win(c, 0).clients;
  }

  lemma WinStep(c: nat, k: nat)
    requires k < c
    ensures Enabled(Win(c, k), Add(k)) && Step(Win(c, k), Add(k)) == Win(c, k + 1)
    ensures Win(c, c) == Lose(c, 0)
  {
    assert Step(Win(c, k), Add(k)).clients == Win(c, k + 1).clients;
    assert Win(c, c).clients == Lose(c, 0).clients;
  }

  lemma LoseStep(c: nat, k: nat)
    requires k < c
    ensures Enabled(Lose(c, k), Add(c + k)) && Step(Lose(c, k), Add(c + k)) == Lose(c, k + 1)
    ensures Lose(c, c) == Fail(c, 0)
  {
    assert Step(Lose(c, k), Add(c + k)).clients == Lose(c, k + 1).clients;
    assert Lose(c, c).clients == Fail(c, 0).clients;
  }

  lemma FailStep(c: nat, k: nat)
    requires k < c
    ensures Enabled(Fail(c, k), DialFail(k)) && Step(Fail(c, k), DialFail(k)) == Fail(c, k + 1)
  {
    assert Step(Fail(c, k), DialFail(k)).clients == Fail(c, k + 1).clients;
  }

  lemma RaceStep(c: nat, j: nat)
    requires j < 7 * c
    ensures Enabled(RaceAt(c, j), RaceEvent(c, j)) && Step(RaceAt(c, j), RaceEvent(c, j)) == RaceAt(c, j + 1)
  {
    hide Enabled, Step, Look, Find, Win, Lose, Fail;
    if j < 2 * c {
      LookStep(c, j);
    } else if j < 4 * c {
      FindStep(c, j - 2 * c);
    } else if j < 5 * c {
      WinStep(c, j - 4 * c);
    } else if j < 6 * c {
      LoseStep(c, j - 5 * c);
    } else {
      FailStep(c, j - 6 * c);
    }
  }

  lemma {:induction false} RaceFrom(c: nat, j: nat) returns (es: seq<Event>)
    requires j <= 7 * c
    ensures IsRun(RaceAt(c, j), es) && NoStaleMark(es) && Run(RaceAt(c, j), es) == RaceAt(c, 7 * c)
    decreases 7 * c - j
  {
    hide RaceAt, Enabled, Step, Run, IsRun;
    if j == 7 * c {
      es := [];
      NoEvents(RaceAt(c, j));
    } else {
      var rest := RaceFrom(c, j + 1);
      RaceStep(c, j);
      RunCons(RaceAt(c, j), RaceEvent(c, j), rest);
      es := [RaceEvent(c, j)] + rest;
    }
  }

  lemma {:induction false} NoWeight(cs: seq<Client>)
    requires forall i :: 0 <= i < |cs| ==> cs[i] == Out || cs[i] == Waiting
    ensures Weights(cs) == 0
  {
    if cs != [] {
      NoWeight(cs[..|cs| - 1]);
    }
  }

  /** Whatever the capacity, lost races can use it up: a new pool is starved for good. */
  lemma StarvationReachable(capacity: nat)
    ensures exists es :: IsRun(Start(capacity, 0, 2 * capacity), es) && NoStaleMark(es)
                         && Starved(Run(Start(capacity, 0, 2 * capacity), es))
  {
    hide Run, IsRun, Weights;
    var es := RaceFrom(capacity, 0);
    var p := RaceAt(capacity, 7 * capacity);
    assert Start(capacity, 0, 2 * capacity).clients == RaceAt(capacity, 0).clients;
    assert Start(capacity, 0, 2 * capacity).idle == [];
    NoWeight(p.clients);
  }
}
