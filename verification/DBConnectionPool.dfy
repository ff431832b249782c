// The connection pool monitor of db/DBConnectionPool.cpp, as the interleaving of its critical sections.
// A client is one user of the pool at a time: a thread inside lockConnection, holding a connection
// through a DBConnectionLock, or inside unlockConnection.
module ConnectionPoolSteps {
  import opened Counting

  type Client = nat
  type Connection = nat

  /** Where a client stands.  A client that is not in the table is outside the pool. */
  datatype Status =
    | Sleeping                       // in condition.wait
    | Woken                          // out of condition.wait, about to take the mutex again
    | Holding(connection: Connection)
    | Releasing                      // has pushed the connection, has not yet called notify_one

  datatype State = State(
    created: set<Connection>,
    active: bool,
    pool: seq<Connection>,
    clients: map<Client, Status>)

  datatype Action =
    | Lock(client: Client)           // lockConnection up to its first wait or its return
    | Retry(client: Client)          // the wait loop after a wake-up
    | Spurious(client: Client)       // a wake-up nobody sent
    | Push(client: Client)           // the locked part of unlockConnection
    | Notify(client: Client, chosen: Client)  // notify_one; chosen matters only if someone sleeps

  function At(s: State, status: Status): set<Client> {
    set c | c in s.clients && s.clients[c] == status
  }

  function Holders(s: State): set<Client> {
    set c | c in s.clients && s.clients[c].Holding?
  }

  predicate Is(s: State, c: Client, status: Status) {
    c in s.clients && s.clients[c] == status
  }

  predicate Enabled(s: State, a: Action) {
    match a
    case Lock(c) => c !in s.clients
    case Retry(c) => Is(s, c, Woken)
    case Spurious(c) => Is(s, c, Sleeping)
    case Push(c) => c in s.clients && s.clients[c].Holding?
    case Notify(c, w) => Is(s, c, Releasing) && (At(s, Sleeping) != {} ==> w in At(s, Sleeping))
  }

  function TakeOrSleep(s: State, c: Client): State {
    if s.pool == [] then s.(clients := s.clients[c := Sleeping])
    else s.(pool := s.pool[1..], clients := s.clients[c := Holding(s.pool[0])])
  }

  function Apply(s: State, a: Action): State
    requires Enabled(s, a)
  {
    match a
    case Lock(c) => if s.active then TakeOrSleep(s, c) else s
    case Retry(c) => TakeOrSleep(s, c)
    case Spurious(c) => s.(clients := s.clients[c := Woken])
    case Push(c) =>
      s.(pool := s.pool + [s.clients[c].connection], clients := s.clients[c := Releasing])
    case Notify(c, w) =>
      var rest := s.clients - {c};
      s.(clients := if At(s, Sleeping) != {} then rest[w := Woken] else rest)
  }

  // ---- Conservation

  ghost predicate Held(s: State, x: Connection) {
    exists c :: c in s.clients && s.clients[c] == Holding(x)
  }

  /** Idle and lent connections together are the created ones, each exactly once. */
  ghost predicate Conserved(s: State) {
    && (forall i, j :: 0 <= i < j < |s.pool| ==> s.pool[i] != s.pool[j])
    && (forall c :: c in s.clients && s.clients[c].Holding? ==> s.clients[c].connection !in s.pool)
    && (forall c, d :: c in s.clients && d in s.clients && c != d && s.clients[c].Holding? && s.clients[d].Holding?
          ==> s.clients[c].connection != s.clients[d].connection)
    && (forall x :: x in s.created <==> x in s.pool || Held(s, x))
  }

  /** No wake-up is lost: while someone sleeps, each idle connection is matched by a client that is awake
      and will look, or by a notification still to be sent. */
  predicate WakeupsCover(s: State) {
    At(s, Sleeping) != {} ==> |s.pool| <= |At(s, Woken)| + |At(s, Releasing)|
  }

  ghost predicate Inv(s: State) {
    && Conserved(s)
    && WakeupsCover(s)
    && (s.clients != map[] ==> s.active)
    && (s.active <==> s.created != {})
  }

  /** After init: the connections that could be created, all idle. */
  function Initial(order: seq<Connection>): State {
    State((set x | x in order), order != [], order, map[])
  }

  lemma InitialInv(order: seq<Connection>)
    requires forall i, j :: 0 <= i < j < |order| ==> order[i] != order[j]
    ensures Inv(Initial(order))
  {
    if order != [] {
      assert order[0] in Initial(order).created;
    }
  }

  lemma ConservedByTake(s: State, c: Client)
    requires Conserved(s) && s.pool != []
    requires c in s.clients ==> !s.clients[c].Holding?
    ensures Conserved(TakeOrSleep(s, c))
  {
    var t := TakeOrSleep(s, c);
    assert s.pool == [s.pool[0]] + t.pool;
    forall x
      ensures x in t.created <==> x in t.pool || Held(t, x)
    {
      if Held(s, x) {
        var d :| d in s.clients && s.clients[d] == Holding(x);
        assert t.clients[d] == Holding(x);
      }
      if x == s.pool[0] {
        assert t.clients[c] == Holding(x);
      }
      if Held(t, x) {
        var d :| d in t.clients && t.clients[d] == Holding(x);
        assert d == c || s.clients[d] == Holding(x);
      }
    }
  }

  lemma ConservedByPush(s: State, c: Client)
    requires Conserved(s) && Enabled(s, Push(c))
    ensures Conserved(Apply(s, Push(c)))
  {
    var t, y := Apply(s, Push(c)), s.clients[c].connection;
    forall x
      ensures x in t.created <==> x in t.pool || Held(t, x)
    {
      if Held(s, x) {
        var d :| d in s.clients && s.clients[d] == Holding(x);
        assert d == c || t.clients[d] == Holding(x);
      }
      if Held(t, x) {
        var d :| d in t.clients && t.clients[d] == Holding(x);
        assert s.clients[d] == Holding(x);
      }
      assert Held(s, y);
    }
  }

  /** Steps that move no connection. */
  lemma ConservedByOthers(s: State, t: State)
    requires Conserved(s) && t.created == s.created && t.pool == s.pool
    requires forall c :: (c in s.clients && s.clients[c].Holding?) <==> (c in t.clients && t.clients[c].Holding?)
    requires forall c :: c in s.clients && s.clients[c].Holding? ==> t.clients[c] == s.clients[c]
    ensures Conserved(t)
  {
    forall x
      ensures Held(s, x) <==> Held(t, x)
    {
      if Held(s, x) {
        var d :| d in s.clients && s.clients[d] == Holding(x);
        assert t.clients[d] == Holding(x);
      }
      if Held(t, x) {
        var d :| d in t.clients && t.clients[d] == Holding(x);
        assert s.clients[d] == Holding(x);
      }
    }
  }

  lemma StepConserves(s: State, a: Action)
    requires Inv(s) && Enabled(s, a)
    ensures Conserved(Apply(s, a))
  {
    match a {
      case Lock(c) =>
        if s.pool != [] {
          ConservedByTake(s, c);
        } else {
          ConservedByOthers(s, Apply(s, a));
        }
      case Retry(c) =>
        if s.pool != [] {
          ConservedByTake(s, c);
        } else {
          ConservedByOthers(s, Apply(s, a));
        }
      case Push(c) => ConservedByPush(s, c);
      case Spurious(c) => ConservedByOthers(s, Apply(s, a));
      case Notify(c, w) => ConservedByOthers(s, Apply(s, a));
    }
  }

  // ---- How each step moves the clients between the places

  /** The places of all clients but c are the same in s and t. */
  ghost predicate OnlyMoves(s: State, t: State, c: Client) {
    forall d :: d != c ==> ((d in s.clients <==> d in t.clients) && (d in s.clients ==> s.clients[d] == t.clients[d]))
  }

  function Weight(s: State, c: Client): nat {
    if c !in s.clients then 0
    else match s.clients[c]
      case Sleeping => 5
      case Woken => 6
      case Holding(_) => 3
      case Releasing => 2
  }

  lemma MoveOne(s: State, t: State, c: Client, status: Status)
    requires OnlyMoves(s, t, c)
    ensures |At(t, status)| + One(Is(s, c, status)) == |At(s, status)| + One(Is(t, c, status))
  {
    assert At(s, status) - {c} == At(t, status) - {c};
    CardinalityMove(At(s, status), At(t, status), c);
  }

  lemma MoveHolder(s: State, t: State, c: Client)
    requires OnlyMoves(s, t, c)
    ensures |Holders(t)| + One(c in Holders(s)) == |Holders(s)| + One(c in Holders(t))
  {
    assert Holders(s) - {c} == Holders(t) - {c};
    CardinalityMove(Holders(s), Holders(t), c);
  }

  /** What is left to do if nobody else comes: a sleeper must still be woken, take, push and notify. */
  function Work(s: State): nat {
    5 * |At(s, Sleeping)| + 6 * |At(s, Woken)| + 3 * |Holders(s)| + 2 * |At(s, Releasing)|
  }

  lemma MoveAll(s: State, t: State, c: Client)
    requires OnlyMoves(s, t, c)
    ensures |At(t, Sleeping)| + One(Is(s, c, Sleeping)) == |At(s, Sleeping)| + One(Is(t, c, Sleeping))
    ensures |At(t, Woken)| + One(Is(s, c, Woken)) == |At(s, Woken)| + One(Is(t, c, Woken))
    ensures |At(t, Releasing)| + One(Is(s, c, Releasing)) == |At(s, Releasing)| + One(Is(t, c, Releasing))
    ensures Work(t) + Weight(s, c) == Work(s) + Weight(t, c)
  {
    MoveOne(s, t, c, Sleeping);
    MoveOne(s, t, c, Woken);
    MoveOne(s, t, c, Releasing);
    MoveHolder(s, t, c);
  }

  /** notify_one is the caller leaving, then the chosen sleeper being woken. */
  function Left(s: State, c: Client): State {
    s.(clients := s.clients - {c})
  }

  lemma NotifyInTwo(s: State, c: Client, w: Client)
    requires Enabled(s, Notify(c, w))
    ensures At(Left(s, c), Sleeping) == At(s, Sleeping)
    ensures OnlyMoves(s, Left(s, c), c)
    ensures At(s, Sleeping) == {} ==> Apply(s, Notify(c, w)) == Left(s, c)
    ensures At(s, Sleeping) != {} ==>
              Enabled(Left(s, c), Spurious(w)) && Apply(s, Notify(c, w)) == Apply(Left(s, c), Spurious(w))
  {
  }

  lemma SleepersMatter(s: State)
    ensures At(s, Sleeping) != {} <==> |At(s, Sleeping)| > 0
  {
  }

  lemma MoveKeepsCover(s: State, a: Action, c: Client)
    requires Inv(s) && Enabled(s, a)
    requires a == Lock(c) || a == Retry(c) || a == Spurious(c) || a == Push(c)
    ensures WakeupsCover(Apply(s, a))
  {
    SleepersMatter(s);
    SleepersMatter(Apply(s, a));
    MoveAll(s, Apply(s, a), c);
  }

  lemma NotifyKeepsCover(s: State, c: Client, w: Client)
    requires Inv(s) && Enabled(s, Notify(c, w))
    ensures WakeupsCover(Apply(s, Notify(c, w)))
  {
    var t := Apply(s, Notify(c, w));
    SleepersMatter(s);
    SleepersMatter(t);
    NotifyInTwo(s, c, w);
    MoveAll(s, Left(s, c), c);
    if At(s, Sleeping) != {} {
      MoveAll(Left(s, c), t, w);
    }
  }

  lemma StepKeepsCover(s: State, a: Action)
    requires Inv(s) && Enabled(s, a)
    ensures WakeupsCover(Apply(s, a))
  {
    hide Inv, Enabled, Apply, WakeupsCover;
    match a {
      case Lock(c) => MoveKeepsCover(s, a, c);
      case Retry(c) => MoveKeepsCover(s, a, c);
      case Spurious(c) => MoveKeepsCover(s, a, c);
      case Push(c) => MoveKeepsCover(s, a, c);
      case Notify(c, w) => NotifyKeepsCover(s, c, w);
    }
  }

  /** Every step keeps conservation and the wake-up cover. */
  lemma StepKeepsInv(s: State, a: Action)
    requires Inv(s) && Enabled(s, a)
    ensures Inv(Apply(s, a))
  {
    StepConserves(s, a);
    StepKeepsCover(s, a);
  }

  // ---- Runs

  ghost predicate IsRun(s: State, actions: seq<Action>, t: State)
    decreases |actions|
  {
    if actions == [] then t == s
    else Enabled(s, actions[0]) && IsRun(Apply(s, actions[0]), actions[1..], t)
  }

  lemma {:induction false} RunKeepsInv(s: State, actions: seq<Action>, t: State)
    requires Inv(s) && IsRun(s, actions, t)
    ensures Inv(t)
    decreases |actions|
  {
    if actions != [] {
      StepKeepsInv(s, actions[0]);
      RunKeepsInv(Apply(s, actions[0]), actions[1..], t);
    }
  }

  /** Over every interleaving from the initial state: idle plus lent connections are exactly the created
      ones, nobody shares a connection, and no wake-up is lost. */
  lemma EveryRunIsSafe(order: seq<Connection>, actions: seq<Action>, t: State)
    requires forall i, j :: 0 <= i < j < |order| ==> order[i] != order[j]
    requires IsRun(Initial(order), actions, t)
    ensures Conserved(t) && WakeupsCover(t)
    ensures forall x :: x in t.created <==> x in order
  {
    InitialInv(order);
    RunKeepsInv(Initial(order), actions, t);
    RunKeepsCreated(Initial(order), actions, t);
  }

  lemma {:induction false} RunKeepsCreated(s: State, actions: seq<Action>, t: State)
    requires IsRun(s, actions, t)
    ensures t.created == s.created
    decreases |actions|
  {
    if actions != [] {
      RunKeepsCreated(Apply(s, actions[0]), actions[1..], t);
    }
  }

  // ---- Progress

  /** A new arrival brings at most 5 units of work and a spurious wake-up 1; every other step removes at
      least 1. */
  lemma StepWork(s: State, a: Action)
    requires Enabled(s, a)
    ensures Work(Apply(s, a)) <= Work(s) + (if a.Lock? then 5 else if a.Spurious? then 1 else -1)
  {
    var t := Apply(s, a);
    match a {
      case Lock(c) => MoveAll(s, t, c);
      case Retry(c) => MoveAll(s, t, c);
      case Spurious(c) => MoveAll(s, t, c);
      case Push(c) => MoveAll(s, t, c);
      case Notify(c, w) =>
        NotifyInTwo(s, c, w);
        MoveAll(s, Left(s, c), c);
        if At(s, Sleeping) != {} {
          MoveAll(Left(s, c), t, w);
        }
    }
  }

  function Arrivals(actions: seq<Action>): nat {
    if actions == [] then 0 else One(actions[0].Lock?) + Arrivals(actions[1..])
  }

  function SpuriousWakeups(actions: seq<Action>): nat {
    if actions == [] then 0 else One(actions[0].Spurious?) + SpuriousWakeups(actions[1..])
  }

  lemma {:induction false} CountsSnoc(actions: seq<Action>, last: Action)
    ensures Arrivals(actions + [last]) == Arrivals(actions) + One(last.Lock?)
    ensures SpuriousWakeups(actions + [last]) == SpuriousWakeups(actions) + One(last.Spurious?)
  {
    var s := actions + [last];
    if actions == [] {
      assert s[1..] == [];
    } else {
      assert s[1..] == actions[1..] + [last];
      CountsSnoc(actions[1..], last);
    }
  }

  predicate IsArrival(a: Action) {
    a.Lock?
  }

  predicate IsSpurious(a: Action) {
    a.Spurious?
  }

  /** The counts are the numbers of places in the run where a client arrives, or wakes up by itself. */
  lemma {:induction false} CountsArePlaces(actions: seq<Action>)
    ensures Arrivals(actions) == |Places(actions, IsArrival)|
    ensures SpuriousWakeups(actions) == |Places(actions, IsSpurious)|
  {
    if actions != [] {
      var init, last := actions[..|actions| - 1], actions[|actions| - 1];
      hide Arrivals, SpuriousWakeups, Places;
      CountsArePlaces(init);
      CountsSnoc(init, last);
      PlacesSnoc(init, last, IsArrival);
      PlacesSnoc(init, last, IsSpurious);
      assert actions == init + [last];
    }
  }

  lemma {:induction false} RunCosts(s: State, actions: seq<Action>, t: State)
    requires IsRun(s, actions, t)
    ensures |actions| + Work(t) <= Work(s) + 6 * Arrivals(actions) + 2 * SpuriousWakeups(actions)
    decreases |actions|
  {
    if actions != [] {
      StepWork(s, actions[0]);
      RunCosts(Apply(s, actions[0]), actions[1..], t);
    }
  }

  /** No livelock: the length of a run is bounded by the work there was, the arrivals and the spurious
      wake-ups. */
  lemma RunIsBounded(s: State, actions: seq<Action>, t: State)
    requires IsRun(s, actions, t)
    ensures |actions| + Work(t) <=
            Work(s) + 6 * |Places(actions, IsArrival)| + 2 * |Places(actions, IsSpurious)|
  {
    RunCosts(s, actions, t);
    CountsArePlaces(actions);
  }

  /** A step some client in the pool can take by itself. */
  predicate GoesOn(s: State, a: Action) {
    Enabled(s, a) && !a.Lock? && !a.Spurious?
  }

  lemma AwakeClientGoesOn(s: State, c: Client)
    requires c in s.clients && s.clients[c] != Sleeping
    ensures exists a :: GoesOn(s, a)
  {
    match s.clients[c] {
      case Woken => assert GoesOn(s, Retry(c));
      case Holding(_) => assert GoesOn(s, Push(c));
      case Releasing =>
        var w :| At(s, Sleeping) != {} ==> w in At(s, Sleeping);
        assert GoesOn(s, Notify(c, w));
    }
  }

  /** No deadlock: as long as a client is in the pool, some client can go on by itself. */
  lemma SomebodyGoesOn(s: State)
    requires Inv(s) && s.clients != map[]
    ensures exists a :: GoesOn(s, a)
  {
    var c :| c in s.clients;
    if s.clients[c] != Sleeping {
      AwakeClientGoesOn(s, c);
    } else if s.pool != [] {
      assert c in At(s, Sleeping);
      var awake := At(s, Woken) + At(s, Releasing);
      assert awake != {} by {
        if At(s, Woken) == {} {
          assert |At(s, Releasing)| > 0;
        }
      }
      var d :| d in awake;
      AwakeClientGoesOn(s, d);
    } else {
      var x :| x in s.created;
      assert Held(s, x);
      var d :| d in s.clients && s.clients[d] == Holding(x);
      AwakeClientGoesOn(s, d);
    }
  }

  /** Nobody is left behind: when no client can go on by itself, no client is in the pool, asleep or
      otherwise, and every connection is idle. */
  lemma StuckServesEverybody(s: State)
    requires Inv(s) && !exists a :: GoesOn(s, a)
    ensures s.clients == map[]
    ensures forall x :: x in s.created <==> x in s.pool
  {
    if s.clients != map[] {
      SomebodyGoesOn(s);
    }
    assert forall x :: !Held(s, x);
  }
}

// The pool object: its queue and flag, its mutex as the atomicity of each method, its condition
// variable as the table of clients.
module DBConnectionPools {
  import opened Options
  import opened ConnectionPoolSteps

  function Successes(outcomes: seq<Option<Connection>>): seq<Connection> {
    if outcomes == [] then []
    else
      var rest := Successes(outcomes[..|outcomes| - 1]);
      if outcomes[|outcomes| - 1].Some? then rest + [outcomes[|outcomes| - 1].value] else rest
  }

  /** Each call of createConnection that succeeds makes a connection of its own. */
  ghost predicate AllDifferent(outcomes: seq<Option<Connection>>) {
    forall i, j :: 0 <= i < j < |outcomes| && outcomes[i].Some? && outcomes[j].Some? ==> outcomes[i] != outcomes[j]
  }

  lemma SuccessesNext(outcomes: seq<Option<Connection>>, i: nat)
    requires i < |outcomes|
    ensures Successes(outcomes[..i + 1]) ==
            Successes(outcomes[..i]) + if outcomes[i].Some? then [outcomes[i].value] else []
  {
    assert outcomes[..i + 1][..i] == outcomes[..i];
  }

  /** `pool` is what succeeded: `at` are the places of all successful outcomes, in order. */
  ghost predicate Picks(outcomes: seq<Option<Connection>>, pool: seq<Connection>, at: seq<nat>) {
    && |at| == |pool|
    && (forall k :: 0 <= k < |at| ==> at[k] < |outcomes| && outcomes[at[k]] == Some(pool[k]))
    && (forall k, l :: 0 <= k < l < |at| ==> at[k] < at[l])
    && (forall i: nat :: i < |outcomes| && outcomes[i].Some? ==> i in at)
  }

  lemma PicksNext(outcomes: seq<Option<Connection>>, last: Option<Connection>, pool: seq<Connection>, at: seq<nat>)
    requires Picks(outcomes, pool, at)
    ensures last.None? ==> Picks(outcomes + [last], pool, at)
    ensures last.Some? ==> Picks(outcomes + [last], pool + [last.value], at + [|outcomes|])
  {
  }

  lemma {:induction false} SuccessesArePicked(outcomes: seq<Option<Connection>>) returns (at: seq<nat>)
    ensures Picks(outcomes, Successes(outcomes), at)
  {
    if outcomes == [] {
      at := [];
    } else {
      var init, last := outcomes[..|outcomes| - 1], outcomes[|outcomes| - 1];
      at := SuccessesArePicked(init);
      hide Picks;
      PicksNext(init, last, Successes(init), at);
      assert outcomes == init + [last];
      if last.Some? {
        at := at + [|init|];
      }
    }
  }

  lemma SuccessesAreTheConnections(outcomes: seq<Option<Connection>>)
    requires AllDifferent(outcomes)
    ensures var pool := Successes(outcomes);
            && (exists at :: Picks(outcomes, pool, at))
            && (forall x :: x in pool <==> Some(x) in outcomes)
            && (pool != [] <==> exists x :: Some(x) in outcomes)
            && forall i, j :: 0 <= i < j < |pool| ==> pool[i] != pool[j]
  {
    var at := SuccessesArePicked(outcomes);
    var pool := Successes(outcomes);
    hide Successes;
    forall x | Some(x) in outcomes ensures x in pool {
      var i: nat :| i < |outcomes| && outcomes[i] == Some(x);
      assert i in at;
      var k :| 0 <= k < |at| && at[k] == i;
      assert pool[k] == x;
    }
    assert pool != [] ==> Some(pool[0]) in outcomes;
  }

  lemma InitialOfSuccesses(outcomes: seq<Option<Connection>>)
    requires AllDifferent(outcomes)
    ensures var s := Initial(Successes(outcomes));
            && Inv(s)
            && (exists at :: Picks(outcomes, s.pool, at))
            && (forall x :: x in s.pool <==> Some(x) in outcomes)
            && (s.active <==> exists x :: Some(x) in outcomes)
            && s.clients == map[]
            && forall x :: x in s.created <==> Some(x) in outcomes
  {
    SuccessesAreTheConnections(outcomes);
    InitialInv(Successes(outcomes));
    hide Successes, Picks, Inv, AllDifferent;
  }

  class DBConnectionPool {
    const count: nat
    var active: bool
    var pool: seq<Connection>
    var clients: map<Client, Status>
    ghost var created: set<Connection>

    ghost function Snapshot(): State
      reads this
    {
      State(created, active, pool, clients)
    }

    constructor (count: nat)
      ensures this.count == count && Snapshot() == Initial([])
    {
      this.count := count;
      active, pool, clients, created := false, [], map[], {};
    }

    /** `outcomes` is what the `count` calls of createConnection return; each connection is a new one. */
    method Init(outcomes: seq<Option<Connection>>)
      requires |outcomes| == count && Snapshot() == Initial([])
      requires AllDifferent(outcomes)
      modifies this
      ensures Snapshot() == Initial(Successes(outcomes))
      ensures Inv(Snapshot())
      ensures exists at :: Picks(outcomes, pool, at)
      ensures forall x :: x in pool <==> Some(x) in outcomes
      ensures active <==> exists x :: Some(x) in outcomes
      ensures clients == map[] && forall x :: x in created <==> Some(x) in outcomes
    {
      hide Successes, Picks, Inv, AllDifferent;
      CreateAll(outcomes);
      active := pool != [];
      created := set x | x in pool;
      assert Snapshot() == Initial(Successes(outcomes));
      hide Initial;
      InitialOfSuccesses(outcomes);
    }

    /** The loop of init. */
    method CreateAll(outcomes: seq<Option<Connection>>)
      requires |outcomes| == count && pool == []
      modifies this`pool
      ensures pool == Successes(outcomes)
    {
      assert Successes([]) == [];
      hide Successes;
      for i := 0 to count
        invariant pool == Successes(outcomes[..i])
      {
        var conn := outcomes[i];
        SuccessesNext(outcomes, i);
        if conn.Some? {
          pool := pool + [conn.value];
        }
      }
      assert outcomes[..count] == outcomes;
    }

    /** The end of lockConnection's locked part: one look at the queue. */
    method TakeOrWait(c: Client) returns (conn: Option<Connection>)
      modifies this`pool, this`clients
      ensures Snapshot() == TakeOrSleep(old(Snapshot()), c)
      ensures conn == if old(pool) == [] then None else Some(old(pool)[0])
    {
      if pool == [] {
        clients := clients[c := Sleeping];
        return None;
      }
      conn := Some(pool[0]);
      pool := pool[1..];
      clients := clients[c := Holding(conn.value)];
    }

    /** lockConnection up to its return or its first wait: an inactive pool lends nothing and makes nobody
        wait; otherwise the client gets the oldest idle connection, or sleeps. */
    method LockConnection(c: Client) returns (conn: Option<Connection>)
      requires Inv(Snapshot()) && c !in clients
      modifies this
      ensures Snapshot() == Apply(old(Snapshot()), Lock(c)) && Inv(Snapshot())
      ensures created == old(created)
      ensures conn.Some? <==> old(active) && old(pool) != []
      ensures conn.Some? ==>
                old(pool) == [conn.value] + pool && conn.value !in pool
                && clients == old(clients)[c := Holding(conn.value)]
      ensures conn.None? ==>
                pool == old(pool) && clients == if old(active) then old(clients)[c := Sleeping] else old(clients)
    {
      StepKeepsInv(Snapshot(), Lock(c));
      if !active {
        return None;
      }
      conn := TakeOrWait(c);
    }

    /** The wait loop after a wake-up. */
    method ResumeWait(c: Client) returns (conn: Option<Connection>)
      requires Inv(Snapshot()) && Is(Snapshot(), c, Woken)
      modifies this
      ensures Snapshot() == Apply(old(Snapshot()), Retry(c)) && Inv(Snapshot())
      ensures conn.Some? <==> old(pool) != []
      ensures conn.Some? ==> old(pool) == [conn.value] + pool && conn.value !in pool
      ensures clients == old(clients)[c := if conn.Some? then Holding(conn.value) else Sleeping]
    {
      StepKeepsInv(Snapshot(), Retry(c));
      conn := TakeOrWait(c);
    }

    /** The locked part of unlockConnection: the connection goes to the back of the queue. */
    method UnlockPush(c: Client)
      requires Inv(Snapshot()) && c in clients && clients[c].Holding?
      modifies this
      ensures Snapshot() == Apply(old(Snapshot()), Push(c)) && Inv(Snapshot())
      ensures pool == old(pool) + [old(clients)[c].connection] && clients == old(clients)[c := Releasing]
    {
      StepKeepsInv(Snapshot(), Push(c));
      var conn := clients[c].connection;
      pool := pool + [conn];
      clients := clients[c := Releasing];
    }

    /** notify_one, after the mutex is released; which sleeper it wakes is not ours to choose. */
    method UnlockNotify(c: Client, chosen: Client)
      requires Inv(Snapshot()) && Enabled(Snapshot(), Notify(c, chosen))
      modifies this
      ensures Snapshot() == Apply(old(Snapshot()), Notify(c, chosen)) && Inv(Snapshot())
      ensures pool == old(pool)
      ensures clients == if exists d :: d in old(clients) && old(clients)[d] == Sleeping
                         then (old(clients) - {c})[chosen := Woken] else old(clients) - {c}
    {
      StepKeepsInv(Snapshot(), Notify(c, chosen));
      var someoneSleeps := exists d :: d in clients && clients[d] == Sleeping;
      assert someoneSleeps <==> At(Snapshot(), Sleeping) != {} by {
        if someoneSleeps {
          var d :| d in clients && clients[d] == Sleeping;
          assert d in At(Snapshot(), Sleeping);
        }
      }
      clients := clients - {c};
      if someoneSleeps {
        clients := clients[chosen := Woken];
      }
    }
  }
}
