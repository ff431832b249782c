// How irc/IRCChannelList.cpp hands channels to sessions, and what follows for the whole client when
// sessions log in and disconnect in any order (irc/IRCClient.cpp).
module ChannelSteps {
  import opened Options
  import opened Counting

  type Session = nat
  type Name = string

  datatype Channel = Channel(session: Option<Session>, joined: bool)

  type Table = map<Name, Channel>

  /** The iteration order of the std::map: every name once.  Nothing below depends on which order. */
  ghost predicate Lists(names: seq<Name>, t: Table) {
    && (forall i :: 0 <= i < |names| ==> names[i] in t)
    && (forall n :: n in t ==> n in names)
    && (forall i, j :: 0 <= i < j < |names| ==> names[i] != names[j])
  }

  ghost predicate AllIn(names: seq<Name>, t: Table) {
    forall i :: 0 <= i < |names| ==> names[i] in t
  }

  ghost predicate Distinct(names: seq<Name>) {
    forall i, j :: 0 <= i < j < |names| ==> names[i] != names[j]
  }

  function HeldBy(names: seq<Name>, t: Table, s: Session): nat {
    if names == [] then 0
    else One(names[0] in t && t[names[0]].session == Some(s)) + HeldBy(names[1..], t, s)
  }

  function Unattached(names: seq<Name>, t: Table): nat {
    if names == [] then 0
    else One(names[0] in t && t[names[0]].session == None) + Unattached(names[1..], t)
  }

  /** The counts depend only on the sessions of the listed names. */
  lemma {:induction false} CountsAgree(names: seq<Name>, t: Table, u: Table, s: Session)
    requires forall n :: n in names ==> (n in t <==> n in u) && (n in t ==> t[n].session == u[n].session)
    ensures HeldBy(names, t, s) == HeldBy(names, u, s)
    ensures Unattached(names, t) == Unattached(names, u)
  {
    if names != [] {
      CountsAgree(names[1..], t, u, s);
    }
  }

  // ---- Reserving

  function Capacity(size: nat, sessionCount: nat): nat
    requires sessionCount > 0
  {
    size / sessionCount + 1
  }

  function Attach(t: Table, n: Name, s: Session): Table
    requires n in t
  {
    t[n := t[n].(session := Some(s))]
  }

  /** The loop: attach unattached channels, in order, while there is room. */
  function Reserve(names: seq<Name>, t: Table, s: Session, room: nat): (Table, seq<Name>)
    requires AllIn(names, t)
    decreases names
  {
    if names == [] || room == 0 then (t, [])
    else if t[names[0]].session != None then Reserve(names[1..], t, s, room)
    else
      var (u, rest) := Reserve(names[1..], Attach(t, names[0], s), s, room - 1);
      (u, [names[0]] + rest)
  }

  /** The loop is on its way to `goal`: what it has taken, followed by what it will still take. */
  predicate ReserveGoesOn(names: seq<Name>, t: Table, s: Session, room: nat, taken: seq<Name>, goal: (Table, seq<Name>))
    requires AllIn(names, t)
  {
    var (u, rest) := Reserve(names, t, s, room);
    goal == (u, taken + rest)
  }

  lemma ReserveUnfolds(names: seq<Name>, t: Table, s: Session, room: nat, taken: seq<Name>, goal: (Table, seq<Name>))
    requires AllIn(names, t) && names != [] && room > 0
    requires ReserveGoesOn(names, t, s, room, taken, goal)
    ensures if t[names[0]].session != None
            then ReserveGoesOn(names[1..], t, s, room, taken, goal)
            else ReserveGoesOn(names[1..], Attach(t, names[0], s), s, room - 1, taken + [names[0]], goal)
  {
    if t[names[0]].session == None {
      var rest := Reserve(names[1..], Attach(t, names[0], s), s, room - 1).1;
      assert taken + ([names[0]] + rest) == (taken + [names[0]]) + rest;
    }
  }

  lemma ReserveEnds(names: seq<Name>, t: Table, s: Session, room: nat, taken: seq<Name>, goal: (Table, seq<Name>))
    requires AllIn(names, t) && (names == [] || room == 0)
    requires ReserveGoesOn(names, t, s, room, taken, goal)
    ensures goal == (t, taken)
  {
    assert taken + [] == taken;
  }

  /** Names outside the list keep their channel; listed ones change at most from unattached to s. */
  lemma {:induction false} ReserveChanges(names: seq<Name>, t: Table, s: Session, room: nat)
    requires AllIn(names, t)
    ensures var (u, taken) := Reserve(names, t, s, room);
            && u.Keys == t.Keys
            && (forall n :: n in taken ==> n in names)
            && (forall n :: n in t ==> u[n].joined == t[n].joined)
            && (forall n :: n in t ==> u[n].session == if n in taken then Some(s) else t[n].session)
            && (forall n :: n in taken ==> t[n].session == None)
    decreases names
  {
    if names != [] && room != 0 {
      if t[names[0]].session != None {
        ReserveChanges(names[1..], t, s, room);
      } else {
        ReserveChanges(names[1..], Attach(t, names[0], s), s, room - 1);
      }
    }
  }

  function Min(a: nat, b: nat): nat {
    if a < b then a else b
  }

  /** Exactly as many channels as there is room for, or all that are unattached, move to s. */
  lemma {:induction false} ReserveCounts(names: seq<Name>, t: Table, s: Session, room: nat)
    requires AllIn(names, t) && Distinct(names)
    ensures var (u, taken) := Reserve(names, t, s, room);
            && |taken| == Min(room, Unattached(names, t))
            && Unattached(names, u) == Unattached(names, t) - |taken|
            && HeldBy(names, u, s) == HeldBy(names, t, s) + |taken|
            && forall r :: r != s ==> HeldBy(names, u, r) == HeldBy(names, t, r)
    decreases names
  {
    if names != [] {
      var first, more := names[0], names[1..];
      assert first !in more;
      if room != 0 && t[first].session == None {
        var v := Attach(t, first, s);
        ReserveCounts(more, v, s, room - 1);
        ReserveChanges(more, v, s, room - 1);
        forall r ensures HeldBy(more, t, r) == HeldBy(more, v, r) && Unattached(more, t) == Unattached(more, v) {
          CountsAgree(more, t, v, r);
        }
      } else if room != 0 {
        ReserveCounts(more, t, s, room);
        ReserveChanges(more, t, s, room);
      }
    }
  }

  /** It is the first ones of the list: an unattached channel is taken exactly when fewer than `room` stand
      in front of it. */
  lemma {:induction false} ReserveTakesFirst(names: seq<Name>, t: Table, s: Session, room: nat, i: nat)
    requires AllIn(names, t) && Distinct(names) && i < |names|
    ensures names[i] in Reserve(names, t, s, room).1 <==>
            t[names[i]].session == None && Unattached(names[..i], t) < room
    decreases names
  {
    var first, more := names[0], names[1..];
    assert first !in more;
    if i == 0 {
      ReserveSkipsFirst(names, t, s, room);
    } else {
      assert names[..i][0] == first && names[..i][1..] == more[..i - 1];
      if room != 0 && t[first].session == None {
        var v := Attach(t, first, s);
        ReserveTakesFirst(more, v, s, room - 1, i - 1);
        CountsAgree(more[..i - 1], t, v, s);
      } else if room != 0 {
        ReserveTakesFirst(more, t, s, room, i - 1);
      }
    }
  }

  lemma ReserveSkipsFirst(names: seq<Name>, t: Table, s: Session, room: nat)
    requires AllIn(names, t) && Distinct(names) && names != []
    ensures names[0] in Reserve(names, t, s, room).1 <==> t[names[0]].session == None && 0 < room
  {
    if room != 0 && t[names[0]].session != None {
      ReserveChanges(names[1..], t, s, room);
    }
  }

  /** Which channels a session is given, how many, and what becomes of the table. */
  lemma ReserveIsOfFirst(names: seq<Name>, t: Table, s: Session, room: nat)
    requires Lists(names, t) && AllIn(names, t)
    ensures var (u, taken) := Reserve(names, t, s, room);
            && |taken| == Min(room, Unattached(names, t))
            && u.Keys == t.Keys
            && (forall n :: n in t ==> u[n] == if n in taken then t[n].(session := Some(s)) else t[n])
            && (forall n :: n in taken ==> n in t && t[n].session == None)
            && forall i: nat :: i < |names| ==>
                 (names[i] in taken <==> t[names[i]].session == None && Unattached(names[..i], t) < room)
  {
    ListsFacts(names, t);
    hide Lists, Reserve, HeldBy, Unattached;
    ReserveChanges(names, t, s, room);
    ReserveCounts(names, t, s, room);
    forall i: nat | i < |names|
      ensures names[i] in Reserve(names, t, s, room).1 <==>
              t[names[i]].session == None && Unattached(names[..i], t) < room
    {
      ReserveTakesFirst(names, t, s, room, i);
    }
  }

  function HeldSet(names: seq<Name>, t: Table, s: Session): set<Name> {
    set n | n in names && n in t && t[n].session == Some(s)
  }

  function FreeSet(names: seq<Name>, t: Table): set<Name> {
    set n | n in names && n in t && t[n].session == None
  }

  lemma HeldSetOfMore(names: seq<Name>, t: Table, s: Session)
    requires names != [] && names[0] !in names[1..]
    ensures |HeldSet(names, t, s)| ==
            One(names[0] in t && t[names[0]].session == Some(s)) + |HeldSet(names[1..], t, s)|
  {
    var first, held := names[0], HeldSet(names[1..], t, s);
    assert forall n :: n in names <==> n == first || n in names[1..];
    assert HeldSet(names, t, s) == if first in t && t[first].session == Some(s) then held + {first} else held;
  }

  lemma FreeSetOfMore(names: seq<Name>, t: Table)
    requires names != [] && names[0] !in names[1..]
    ensures |FreeSet(names, t)| == One(names[0] in t && t[names[0]].session == None) + |FreeSet(names[1..], t)|
  {
    var first, free := names[0], FreeSet(names[1..], t);
    assert forall n :: n in names <==> n == first || n in names[1..];
    assert FreeSet(names, t) == if first in t && t[first].session == None then free + {first} else free;
  }

  /** The counts are numbers of channels. */
  lemma {:induction false} CountsAreNumbers(names: seq<Name>, t: Table, s: Session)
    requires Distinct(names)
    ensures HeldBy(names, t, s) == |HeldSet(names, t, s)|
    ensures Unattached(names, t) == |FreeSet(names, t)|
  {
    if names != [] {
      hide HeldSet, FreeSet;
      assert names[0] !in names[1..];
      HeldSetOfMore(names, t, s);
      FreeSetOfMore(names, t);
      CountsAreNumbers(names[1..], t, s);
    }
  }

  lemma UnattachedAreFree(names: seq<Name>, t: Table)
    requires Lists(names, t)
    ensures Unattached(names, t) == |set n | n in t && t[n].session == None|
  {
    CountsAreNumbers(names, t, 0);
    assert FreeSet(names, t) == set n | n in t && t[n].session == None;
  }

  // ---- Detaching

  function Released(c: Channel, s: Session): Channel {
    if c.session == Some(s) then Channel(None, false) else c
  }

  function Detach(t: Table, s: Session): Table {
    map n | n in t :: Released(t[n], s)
  }

  /** How far the loop of detachAndPartFromSession has come. */
  function DetachListed(t: Table, done: seq<Name>, s: Session): Table {
    map n | n in t :: if n in done then Released(t[n], s) else t[n]
  }

  lemma DetachListedStep(t: Table, done: seq<Name>, n: Name, s: Session)
    requires n in t && n !in done
    ensures DetachListed(t, done, s).Keys == t.Keys && DetachListed(t, done, s)[n] == t[n]
    ensures DetachListed(t, done + [n], s) ==
            if t[n].session == Some(s) then DetachListed(t, done, s)[n := Channel(None, false)]
            else DetachListed(t, done, s)
  {
  }

  lemma DetachListedEnds(names: seq<Name>, t: Table, s: Session)
    requires Lists(names, t)
    ensures DetachListed(t, [], s) == t
    ensures DetachListed(t, names, s) == Detach(t, s) && Detach(t, s).Keys == t.Keys
  {
  }

  lemma {:induction false} DetachCounts(names: seq<Name>, t: Table, s: Session)
    ensures HeldBy(names, Detach(t, s), s) == 0
    ensures Unattached(names, Detach(t, s)) == Unattached(names, t) + HeldBy(names, t, s)
    ensures forall r :: r != s ==> HeldBy(names, Detach(t, s), r) == HeldBy(names, t, r)
  {
    if names != [] {
      DetachCounts(names[1..], t, s);
    }
  }

  // ---- The client: sessions 0..k log in and disconnect

  datatype State = State(names: seq<Name>, channels: Table, loggedIn: set<Session>)

  datatype Event =
    | LogIn(session: Session)
    | Disconnect(session: Session)
    | ChannelJoined(name: Name)

  /** Any session may report a login or a disconnect at any time, also twice in a row: the login timeout
      disconnects and detaches on the client's thread (irc/IRCClient.cpp:157-161) while the selector's thread
      may already be reporting that login (irc/IRCSession.cpp:246-255), and the reconnect logs in again. */
  predicate Enabled(k: nat, e: Event) {
    match e
    case LogIn(s) => s < k
    case Disconnect(s) => s < k
    case ChannelJoined(_) => true
  }

  function MarkJoined(t: Table, n: Name): Table {
    if n in t then t[n := t[n].(joined := true)] else t
  }

  /** What `sessions` sessions may take together. */
  function Allowance(capacity: nat, sessions: nat): nat {
    capacity * sessions
  }

  lemma AllowanceStep(capacity: nat, sessions: nat)
    ensures Allowance(capacity, sessions + 1) == Allowance(capacity, sessions) + capacity
  {
  }

  /** No session holds more than its capacity. */
  ghost predicate SessionsBound(capacity: nat, st: State) {
    forall s :: HeldBy(st.names, st.channels, s) <= capacity
  }

  /** What nobody holds is no more than the sessions that are out may take. */
  predicate UnattachedBound(k: nat, capacity: nat, st: State)
    requires |st.loggedIn| <= k
  {
    Unattached(st.names, st.channels) <= Allowance(capacity, k - |st.loggedIn|)
  }

  /** The client's own invariant: sessions that are out hold nothing. */
  ghost predicate Inv(k: nat, st: State) {
    && k > 0
    && Lists(st.names, st.channels)
    && |st.names| == |st.channels|
    && |st.loggedIn| <= k
    && (forall s :: s in st.loggedIn ==> s < k)
    && (forall s :: s !in st.loggedIn ==> HeldBy(st.names, st.channels, s) == 0)
  }

  ghost function Apply(k: nat, st: State, e: Event): State
    requires Inv(k, st)
  {
    match e
    case LogIn(s) =>
      st.(channels := Reserve(st.names, st.channels, s, Capacity(|st.names|, k)).0,
          loggedIn := st.loggedIn + {s})
    case Disconnect(s) => st.(channels := Detach(st.channels, s), loggedIn := st.loggedIn - {s})
    case ChannelJoined(n) => st.(channels := MarkJoined(st.channels, n))
  }

  lemma SessionWithin(capacity: nat, st: State, s: Session)
    requires SessionsBound(capacity, st)
    ensures HeldBy(st.names, st.channels, s) <= capacity
  {
  }

  ghost predicate Bounds(k: nat, st: State)
    requires Inv(k, st)
  {
    var capacity := Capacity(|st.names|, k);
    SessionsBound(capacity, st) && UnattachedBound(k, capacity, st)
  }

  /** A login fits if the session has room for what it will be given; it does when it holds nothing. */
  ghost predicate Fits(k: nat, st: State, e: Event)
    requires Inv(k, st)
  {
    var capacity := Capacity(|st.names|, k);
    e.LogIn? ==>
      HeldBy(st.names, st.channels, e.session) + Min(capacity, Unattached(st.names, st.channels)) <= capacity
  }

  lemma ListsSameKeys(names: seq<Name>, t: Table, u: Table)
    requires Lists(names, t) && u.Keys == t.Keys
    ensures Lists(names, u) && |u| == |t|
  {
    assert |u.Keys| == |t.Keys|;
    forall n | n in u ensures n in names {
      assert n in t.Keys;
    }
  }

  /** The arithmetic at the bottom of the coverage bound: the k capacities together exceed the size. */
  lemma CapacitiesSuffice(size: nat, k: nat)
    requires k > 0
    ensures size <= Allowance(Capacity(size, k), k)
  {
    assert size == size / k * k + size % k;
    assert (size / k + 1) * k == size / k * k + k;
  }

  lemma {:induction false} UnattachedAtMostAll(names: seq<Name>, t: Table)
    ensures Unattached(names, t) <= |names|
  {
    if names != [] {
      UnattachedAtMostAll(names[1..], t);
    }
  }

  lemma {:induction false} FreshHoldsNothing(names: seq<Name>, t: Table, s: Session)
    requires forall n :: n in t ==> t[n].session == None
    ensures HeldBy(names, t, s) == 0
  {
    if names != [] {
      FreshHoldsNothing(names[1..], t, s);
    }
  }

  lemma ListsNone()
    ensures Lists([], map[])
  {
  }

  lemma ListsOneMore(names: seq<Name>, t: Table, n: Name, c: Channel)
    requires Lists(names, t) && |names| == |t| && n !in t
    ensures Lists(names + [n], t[n := c]) && |names + [n]| == |t[n := c]|
  {
    forall m | m in t[n := c] ensures m in names + [n] {
    }
  }

  /** After loading, whatever the channels, the bounds hold with nobody logged in. */
  lemma LoadedInv(k: nat, names: seq<Name>, t: Table)
    requires k > 0 && Lists(names, t) && |names| == |t|
    requires forall n :: n in t ==> t[n].session == None
    ensures Inv(k, State(names, t, {})) && Bounds(k, State(names, t, {}))
  {
    CapacitiesSuffice(|t|, k);
    UnattachedAtMostAll(names, t);
    forall s ensures HeldBy(names, t, s) == 0 {
      FreshHoldsNothing(names, t, s);
    }
  }

  lemma SessionsBelow(sessions: set<Session>, k: nat)
    requires forall s :: s in sessions ==> s < k
    ensures |sessions| <= k
    ensures |sessions| == k <==> forall s: Session :: s < k ==> s in sessions
  {
    if k == 0 {
      assert sessions == {};
    } else {
      SessionsBelow(sessions - {k - 1}, k - 1);
      if k - 1 in sessions {
        assert sessions == (sessions - {k - 1}) + {k - 1};
      } else {
        assert sessions == sessions - {k - 1};
      }
    }
  }

  /** A login keeps the invariant, and moves at most a capacity of channels, all to its session. */
  lemma LogInMoves(k: nat, st: State, s: Session)
    requires Inv(k, st) && s < k
    ensures var capacity := Capacity(|st.names|, k);
            var (u, taken) := Reserve(st.names, st.channels, s, capacity);
            && u.Keys == st.channels.Keys && Inv(k, State(st.names, u, st.loggedIn + {s}))
            && |taken| == Min(capacity, Unattached(st.names, st.channels))
            && Unattached(st.names, u) == Unattached(st.names, st.channels) - |taken|
            && HeldBy(st.names, u, s) == HeldBy(st.names, st.channels, s) + |taken|
            && forall r :: r != s ==> HeldBy(st.names, u, r) == HeldBy(st.names, st.channels, r)
  {
    hide Reserve, HeldBy, Unattached, AllIn, Distinct, Lists, Capacity;
    var capacity := Capacity(|st.names|, k);
    ListsFacts(st.names, st.channels);
    ReserveChanges(st.names, st.channels, s, capacity);
    ReserveCounts(st.names, st.channels, s, capacity);
    ListsSameKeys(st.names, st.channels, Reserve(st.names, st.channels, s, capacity).0);
    SessionsBelow(st.loggedIn + {s}, k);
  }

  /** One more session in may take a capacity of what is left, or all of it. */
  lemma AllowanceShrinks(k: nat, capacity: nat, sessions: set<Session>, s: Session, left: nat)
    requires |sessions| <= k && |sessions + {s}| <= k && left <= Allowance(capacity, k - |sessions|)
    ensures left - Min(capacity, left) <= Allowance(capacity, k - |sessions + {s}|)
  {
    if s in sessions {
      assert sessions + {s} == sessions;
    } else {
      AllowanceStep(capacity, k - |sessions + {s}|);
    }
  }

  /** A login, fitting or not, keeps the bound on unattached channels. */
  lemma LogInKeepsUnattachedBound(k: nat, st: State, s: Session)
    requires Inv(k, st) && s < k
    ensures var next := Apply(k, st, LogIn(s));
            && Inv(k, next) && next.channels.Keys == st.channels.Keys
            && (UnattachedBound(k, Capacity(|st.names|, k), st) ==>
                  UnattachedBound(k, Capacity(|st.names|, k), next))
  {
    hide Reserve, HeldBy, Unattached, Allowance, AllIn, Distinct, Lists, Capacity;
    LogInMoves(k, st, s);
    var capacity, left := Capacity(|st.names|, k), Unattached(st.names, st.channels);
    if left <= Allowance(capacity, k - |st.loggedIn|) {
      AllowanceShrinks(k, capacity, st.loggedIn, s, left);
    }
  }

  /** It keeps the bound on what sessions hold exactly when it fits. */
  lemma LogInKeepsSessionsBoundExactly(k: nat, st: State, s: Session)
    requires Inv(k, st) && s < k && SessionsBound(Capacity(|st.names|, k), st)
    ensures SessionsBound(Capacity(|st.names|, k), Apply(k, st, LogIn(s))) <==> Fits(k, st, LogIn(s))
  {
    hide Reserve, HeldBy, Unattached, AllIn, Distinct, Lists, Capacity;
    LogInMoves(k, st, s);
    SessionWithin(Capacity(|st.names|, k), st, s);
    var u := Apply(k, st, LogIn(s)).channels;
    assert HeldBy(st.names, u, s) <= Capacity(|st.names|, k) <==> Fits(k, st, LogIn(s));
  }

  lemma AllowanceGrows(k: nat, capacity: nat, sessions: set<Session>, s: Session)
    requires |sessions| <= k
    ensures |sessions - {s}| <= k
    ensures Allowance(capacity, k - |sessions - {s}|) ==
            Allowance(capacity, k - |sessions|) + if s in sessions then capacity else 0
  {
    if s in sessions {
      assert |sessions - {s}| == |sessions| - 1;
      AllowanceStep(capacity, k - |sessions|);
    } else {
      assert sessions - {s} == sessions;
    }
  }

  lemma DisconnectMoves(k: nat, st: State, s: Session)
    requires Inv(k, st) && s < k
    ensures var u := Detach(st.channels, s);
            && u.Keys == st.channels.Keys && Inv(k, State(st.names, u, st.loggedIn - {s}))
            && HeldBy(st.names, u, s) == 0
            && Unattached(st.names, u) == Unattached(st.names, st.channels) + HeldBy(st.names, st.channels, s)
            && forall r :: r != s ==> HeldBy(st.names, u, r) == HeldBy(st.names, st.channels, r)
  {
    assert Detach(st.channels, s).Keys == st.channels.Keys;
    hide HeldBy, Unattached, Lists, Detach;
    ListsSameKeys(st.names, st.channels, Detach(st.channels, s));
    DetachCounts(st.names, st.channels, s);
    SessionsBelow(st.loggedIn - {s}, k);
  }

  lemma DisconnectKeepsSessionsBound(k: nat, capacity: nat, st: State, s: Session)
    requires Inv(k, st) && s < k && SessionsBound(capacity, st)
    ensures SessionsBound(capacity, State(st.names, Detach(st.channels, s), st.loggedIn - {s}))
  {
    hide HeldBy, Unattached, Lists, Detach;
    DisconnectMoves(k, st, s);
    forall r ensures HeldBy(st.names, Detach(st.channels, s), r) <= capacity {
      SessionWithin(capacity, st, r);
    }
  }

  /** What a session within its capacity releases, its own absence allows for. */
  lemma ReleaseIsAllowed(k: nat, capacity: nat, sessions: set<Session>, s: Session, left: nat, held: nat)
    requires |sessions| <= k && left <= Allowance(capacity, k - |sessions|)
    requires held <= capacity && (s !in sessions ==> held == 0)
    ensures |sessions - {s}| <= k && left + held <= Allowance(capacity, k - |sessions - {s}|)
  {
    hide Allowance;
    AllowanceGrows(k, capacity, sessions, s);
  }

  lemma InvLoggedIn(k: nat, st: State)
    requires Inv(k, st)
    ensures |st.loggedIn| <= k
    ensures forall s :: s !in st.loggedIn ==> HeldBy(st.names, st.channels, s) == 0
  {
  }

  lemma DisconnectKeepsUnattachedBound(k: nat, capacity: nat, st: State, s: Session)
    requires Inv(k, st) && s < k
    requires UnattachedBound(k, capacity, st) && HeldBy(st.names, st.channels, s) <= capacity
    ensures |st.loggedIn - {s}| <= k
    ensures UnattachedBound(k, capacity, State(st.names, Detach(st.channels, s), st.loggedIn - {s}))
  {
    hide HeldBy, Unattached, Allowance, Inv, Detach;
    InvLoggedIn(k, st);
    ReleaseIsAllowed(k, capacity, st.loggedIn, s, Unattached(st.names, st.channels),
                     HeldBy(st.names, st.channels, s));
    DisconnectMoves(k, st, s);
  }

  /** A disconnect keeps the bound on what sessions hold; it keeps the other one if the session was within
      its own. */
  lemma DisconnectStep(k: nat, st: State, s: Session)
    requires Inv(k, st) && s < k
    ensures var capacity, next := Capacity(|st.names|, k), Apply(k, st, Disconnect(s));
            && next.channels.Keys == st.channels.Keys && Inv(k, next)
            && (SessionsBound(capacity, st) ==> SessionsBound(capacity, next))
            && (UnattachedBound(k, capacity, st) && HeldBy(st.names, st.channels, s) <= capacity ==>
                  UnattachedBound(k, capacity, next))
            && Unattached(st.names, next.channels) ==
               Unattached(st.names, st.channels) + HeldBy(st.names, st.channels, s)
  {
    hide HeldBy, Unattached, Lists, Capacity, Detach, SessionsBound, UnattachedBound, Inv;
    var capacity, held := Capacity(|st.names|, k), HeldBy(st.names, st.channels, s);
    DisconnectMoves(k, st, s);
    InvLoggedIn(k, st);
    InvLoggedIn(k, State(st.names, Detach(st.channels, s), st.loggedIn - {s}));
    if SessionsBound(capacity, st) {
      DisconnectKeepsSessionsBound(k, capacity, st, s);
    }
    if UnattachedBound(k, capacity, st) && held <= capacity {
      DisconnectKeepsUnattachedBound(k, capacity, st, s);
    }
  }

  lemma JoinedStep(k: nat, st: State, n: Name)
    requires Inv(k, st)
    ensures var next := st.(channels := MarkJoined(st.channels, n));
            && next.channels.Keys == st.channels.Keys && Inv(k, next)
            && (Bounds(k, next) <==> Bounds(k, st))
  {
    hide HeldBy, Unattached, Allowance, Lists, Capacity;
    var u := MarkJoined(st.channels, n);
    assert u.Keys == st.channels.Keys;
    ListsSameKeys(st.names, st.channels, u);
    CountsAgree(st.names, st.channels, u, 0);
    forall s
      ensures HeldBy(st.names, u, s) == HeldBy(st.names, st.channels, s)
    {
      CountsAgree(st.names, st.channels, u, s);
    }
  }

  /** Every event keeps the invariant, and it keeps the bounds exactly when it is not a login that does not
      fit. */
  lemma StepKeepsInv(k: nat, st: State, e: Event)
    requires Inv(k, st) && Enabled(k, e)
    ensures var next := Apply(k, st, e);
            && Inv(k, next) && next.names == st.names && next.channels.Keys == st.channels.Keys
            && (Bounds(k, st) ==> (Bounds(k, next) <==> Fits(k, st, e)))
  {
    hide Lists, SessionsBound, UnattachedBound, Reserve, Detach, MarkJoined, HeldBy, Unattached;
    match e {
      case LogIn(s) =>
        LogInKeepsUnattachedBound(k, st, s);
        if Bounds(k, st) {
          LogInKeepsSessionsBoundExactly(k, st, s);
        }
      case Disconnect(s) =>
        DisconnectStep(k, st, s);
        if Bounds(k, st) {
          SessionWithin(Capacity(|st.names|, k), st, s);
        }
      case ChannelJoined(n) => JoinedStep(k, st, n);
    }
  }

  lemma ListsFacts(names: seq<Name>, t: Table)
    requires Lists(names, t)
    ensures AllIn(names, t) && Distinct(names)
  {
  }

  /** A run of events, in any order. */
  ghost predicate IsRun(k: nat, st: State, events: seq<Event>, t: State)
    requires Inv(k, st)
    decreases |events|
  {
    if events == [] then t == st
    else
      && Enabled(k, events[0])
      && (StepKeepsInv(k, st, events[0]); IsRun(k, Apply(k, st, events[0]), events[1..], t))
  }

  /** Every login of the run fits. */
  ghost predicate AllFit(k: nat, st: State, events: seq<Event>)
    requires Inv(k, st)
    decreases |events|
  {
    events != [] ==>
      && Enabled(k, events[0]) && Fits(k, st, events[0])
      && (StepKeepsInv(k, st, events[0]); AllFit(k, Apply(k, st, events[0]), events[1..]))
  }

  /** The bounds hold at every moment of the run. */
  ghost predicate AlwaysBounds(k: nat, st: State, events: seq<Event>)
    requires Inv(k, st)
    decreases |events|
  {
    && Bounds(k, st)
    && (events != [] ==>
          && Enabled(k, events[0])
          && (StepKeepsInv(k, st, events[0]); AlwaysBounds(k, Apply(k, st, events[0]), events[1..])))
  }

  /** Over every run the bounds hold throughout if and only if every login fits. */
  lemma {:induction false} RunKeepsBoundsExactly(k: nat, st: State, events: seq<Event>, t: State)
    requires Inv(k, st) && Bounds(k, st) && IsRun(k, st, events, t)
    ensures Inv(k, t) && t.names == st.names
    ensures AlwaysBounds(k, st, events) <==> AllFit(k, st, events)
    ensures AllFit(k, st, events) ==> Bounds(k, t)
    decreases |events|
  {
    hide Inv, Bounds, Fits, Apply, Enabled;
    RunKeepsInv(k, st, events, t);
    if events != [] {
      StepKeepsInv(k, st, events[0]);
      if Fits(k, st, events[0]) {
        RunKeepsBoundsExactly(k, Apply(k, st, events[0]), events[1..], t);
      }
    }
  }

  lemma {:induction false} RunKeepsInv(k: nat, st: State, events: seq<Event>, t: State)
    requires Inv(k, st) && IsRun(k, st, events, t)
    ensures Inv(k, t) && t.names == st.names
    decreases |events|
  {
    hide Inv, Apply;
    if events != [] {
      StepKeepsInv(k, st, events[0]);
      RunKeepsInv(k, Apply(k, st, events[0]), events[1..], t);
    }
  }

  lemma {:induction false} NoneUnattached(names: seq<Name>, t: Table, n: Name)
    requires AllIn(names, t) && n in names && Unattached(names, t) == 0
    ensures t[n].session != None
  {
    if n != names[0] {
      NoneUnattached(names[1..], t, n);
    }
  }

  predicate AllLoggedIn(k: nat, st: State) {
    forall s: Session :: s < k ==> s in st.loggedIn
  }

  ghost predicate Covered(st: State) {
    forall n :: n in st.channels ==> st.channels[n].session != None
  }

  /** With all k sessions logged in, no channel is left over exactly when every one is attached. */
  lemma CoveredExactly(k: nat, st: State)
    requires Inv(k, st) && AllLoggedIn(k, st)
    ensures UnattachedBound(k, Capacity(|st.names|, k), st) <==> Covered(st)
  {
    SessionsBelow(st.loggedIn, k);
    if Unattached(st.names, st.channels) == 0 {
      forall n | n in st.channels ensures st.channels[n].session != None {
        NoneUnattached(st.names, st.channels, n);
      }
    }
    if Covered(st) {
      AllAttached(st.names, st.channels);
    }
  }

  lemma {:induction false} AllAttached(names: seq<Name>, t: Table)
    requires forall n :: n in t ==> t[n].session != None
    ensures Unattached(names, t) == 0
  {
    if names != [] {
      AllAttached(names[1..], t);
    }
  }

  /** Coverage: after any run over the loaded channels whose logins fit, no session holds more than
      n / k + 1 channels, the unattached ones are at most that many for each session that is out, and so,
      whenever all k sessions are logged in, every channel is attached.  The bounds hold throughout if and
      only if the logins fit. */
  lemma Coverage(k: nat, names: seq<Name>, loaded: Table, events: seq<Event>, t: State)
    requires k > 0 && Lists(names, loaded) && |names| == |loaded|
    requires forall n :: n in loaded ==> loaded[n].session == None
    requires (LoadedInv(k, names, loaded); IsRun(k, State(names, loaded, {}), events, t))
    ensures (LoadedInv(k, names, loaded);
             var st := State(names, loaded, {});
             && (AlwaysBounds(k, st, events) <==> AllFit(k, st, events))
             && (AllFit(k, st, events) ==>
                   && (forall s :: HeldBy(names, t.channels, s) <= |names| / k + 1)
                   && |t.loggedIn| <= k
                   && Unattached(names, t.channels) <= (|names| / k + 1) * (k - |t.loggedIn|)
                   && (AllLoggedIn(k, t) ==> Covered(t))))
  {
    hide AllFit, AlwaysBounds, IsRun, HeldBy, Unattached, Lists;
    LoadedInv(k, names, loaded);
    RunKeepsBoundsExactly(k, State(names, loaded, {}), events, t);
    if AllLoggedIn(k, t) {
      CoveredExactly(k, t);
    }
  }

  // ---- The bounds are what coverage needs

  lemma OneMoreEvent(k: nat, st: State, e: Event, events: seq<Event>, t: State)
    requires Inv(k, st) && Enabled(k, e)
    requires (StepKeepsInv(k, st, e); IsRun(k, Apply(k, st, e), events, t))
    ensures IsRun(k, st, [e] + events, t)
    ensures Fits(k, st, e) && (StepKeepsInv(k, st, e); AllFit(k, Apply(k, st, e), events)) ==>
              AllFit(k, st, [e] + events)
  {
    hide Inv, Enabled, Apply, Fits;
    StepKeepsInv(k, st, e);
    assert ([e] + events)[1..] == events && ([e] + events)[0] == e;
  }

  /** The sessions that are out can all log in, each with a login that fits. */
  lemma {:induction false} EverybodyIn(k: nat, st: State) returns (events: seq<Event>, t: State)
    requires Inv(k, st)
    ensures IsRun(k, st, events, t) && Inv(k, t) && AllLoggedIn(k, t) && t.names == st.names
    ensures AllFit(k, st, events)
    ensures forall s :: HeldBy(t.names, t.channels, s) >= HeldBy(st.names, st.channels, s)
    ensures Unattached(t.names, t.channels) >=
            Unattached(st.names, st.channels) - Allowance(Capacity(|st.names|, k), k - |st.loggedIn|)
    decreases k - |st.loggedIn|
  {
    hide Reserve, HeldBy, Unattached, AllIn, Distinct, Lists, Capacity;
    SessionsBelow(st.loggedIn, k);
    if AllLoggedIn(k, st) {
      events, t := [], st;
    } else {
      ListsFacts(st.names, st.channels);
      var s: Session :| s < k && s !in st.loggedIn;
      var e, capacity := LogIn(s), Capacity(|st.names|, k);
      var next := Apply(k, st, e);
      LogInMoves(k, st, s);
      StepKeepsInv(k, st, e);
      assert |next.loggedIn| == |st.loggedIn| + 1;
      AllowanceStep(capacity, k - |next.loggedIn|);
      var rest;
      rest, t := EverybodyIn(k, next);
      events := [e] + rest;
      OneMoreEvent(k, st, e, rest, t);
    }
  }

  lemma {:induction false} RunsJoin(k: nat, st: State, a: seq<Event>, t: State, b: seq<Event>, u: State)
    requires Inv(k, st) && IsRun(k, st, a, t)
    requires (RunKeepsInv(k, st, a, t); IsRun(k, t, b, u))
    ensures IsRun(k, st, a + b, u)
    ensures (RunKeepsInv(k, st, a, t);
             AllFit(k, st, a) && AllFit(k, t, b) ==> AllFit(k, st, a + b))
    decreases |a|
  {
    hide Inv, Enabled, Apply, Fits;
    RunKeepsInv(k, st, a, t);
    if a == [] {
      assert [] + b == b;
    } else {
      StepKeepsInv(k, st, a[0]);
      RunsJoin(k, Apply(k, st, a[0]), a[1..], t, b, u);
      assert a + b == [a[0]] + (a[1..] + b);
      OneMoreEvent(k, st, a[0], a[1..] + b, u);
    }
  }

  /** A run whose logins fit and at whose end everybody is in, but not every channel attached. */
  ghost predicate Uncovers(k: nat, st: State, events: seq<Event>, t: State)
    requires Inv(k, st)
  {
    && IsRun(k, st, events, t) && AllFit(k, st, events)
    && AllLoggedIn(k, t) && !Covered(t)
  }

  /** An overfull session that reconnects leaves channels behind. */
  lemma OverfullReconnects(k: nat, st: State, s: Session) returns (events: seq<Event>, t: State)
    requires Inv(k, st) && AllLoggedIn(k, st) && s < k
    requires HeldBy(st.names, st.channels, s) > Capacity(|st.names|, k)
    ensures Uncovers(k, st, events, t)
  {
    var out := Apply(k, st, Disconnect(s));
    DisconnectStep(k, st, s);
    StepKeepsInv(k, st, Disconnect(s));
    assert Fits(k, out, LogIn(s));
    t := Apply(k, out, LogIn(s));
    LogInMoves(k, out, s);
    StepKeepsInv(k, out, LogIn(s));
    SessionsBelow(t.loggedIn, k);
    CoveredExactly(k, t);
    OneMoreEvent(k, out, LogIn(s), [], t);
    OneMoreEvent(k, st, Disconnect(s), [LogIn(s)] + [], t);
    events := [Disconnect(s)] + ([LogIn(s)] + []);
  }

  lemma UncoveringRun(k: nat, st: State) returns (events: seq<Event>, t: State)
    requires Inv(k, st) && !Bounds(k, st)
    ensures Uncovers(k, st, events, t)
  {
    hide IsRun, AllFit, Lists, HeldBy, Unattached, Capacity, Apply;
    events, t := EverybodyIn(k, st);
    SessionsBelow(t.loggedIn, k);
    CoveredExactly(k, t);
    if Covered(t) {
      var s :| HeldBy(st.names, st.channels, s) > Capacity(|st.names|, k);
      var more, u := OverfullReconnects(k, t, s);
      RunsJoin(k, st, events, t, more, u);
      events, t := events + more, u;
    }
  }

  lemma {:induction false} FreshIsUnattached(names: seq<Name>, t: Table)
    requires AllIn(names, t) && forall n :: n in t ==> t[n].session == None
    ensures Unattached(names, t) == |names|
  {
    if names != [] {
      FreshIsUnattached(names[1..], t);
    }
  }

  lemma SecondLoginOverfills(k: nat, st: State)
    requires Inv(k, st) && |st.names| > |st.names| / k + 1
    requires forall n :: n in st.channels ==> st.channels[n].session == None
    ensures var once := Apply(k, st, LogIn(0));
            && Inv(k, once)
            && Inv(k, Apply(k, once, LogIn(0)))
            && !Bounds(k, Apply(k, once, LogIn(0)))
  {
    assert Capacity(|st.names|, k) == |st.names| / k + 1;
    ListsFacts(st.names, st.channels);
    FreshIsUnattached(st.names, st.channels);
    hide HeldBy, Unattached, Capacity, Reserve, AllIn, Distinct, Lists;
    var once := Apply(k, st, LogIn(0));
    LogInMoves(k, st, 0);
    LogInMoves(k, once, 0);
    assert HeldBy(st.names, Apply(k, once, LogIn(0)).channels, 0) > Capacity(|st.names|, k);
  }

  /** The handler gives channels to a session that already has its share, and that can cost coverage: after
      two logins in a row of one session, and further logins that all fit, everybody is in and some channel
      is left to nobody.  It takes more channels than one session may hold. */
  lemma RepeatedLoginUncovers(k: nat, names: seq<Name>, loaded: Table) returns (events: seq<Event>, t: State)
    requires k > 0 && Lists(names, loaded) && |names| == |loaded| && |names| > |names| / k + 1
    requires forall n :: n in loaded ==> loaded[n].session == None
    ensures (LoadedInv(k, names, loaded); IsRun(k, State(names, loaded, {}), [LogIn(0), LogIn(0)] + events, t))
    ensures (LoadedInv(k, names, loaded);
             var st := State(names, loaded, {});
             StepKeepsInv(k, st, LogIn(0));
             StepKeepsInv(k, Apply(k, st, LogIn(0)), LogIn(0));
             AllFit(k, Apply(k, Apply(k, st, LogIn(0)), LogIn(0)), events))
    ensures AllLoggedIn(k, t) && !Covered(t)
  {
    hide AllFit, IsRun, Bounds;
    var st, e := State(names, loaded, {}), LogIn(0);
    LoadedInv(k, names, loaded);
    SecondLoginOverfills(k, st);
    StepKeepsInv(k, st, e);
    var once := Apply(k, st, e);
    StepKeepsInv(k, once, e);
    hide Apply, Inv;
    events, t := UncoveringRun(k, Apply(k, once, e));
    OneMoreEvent(k, once, e, events, t);
    OneMoreEvent(k, st, e, [e] + events, t);
    assert [e] + ([e] + events) == [e, e] + events;
  }

  /** The bounds are exactly what coverage needs: they hold if and only if, from here on, every run whose
      logins fit has every channel attached whenever it ends with everybody logged in. */
  lemma BoundsAreNeeded(k: nat, st: State)
    requires Inv(k, st)
    ensures Bounds(k, st) <==> forall events, t :: !Uncovers(k, st, events, t)
  {
    if Bounds(k, st) {
      forall events, t | IsRun(k, st, events, t)
        ensures !Uncovers(k, st, events, t)
      {
        RunKeepsBoundsExactly(k, st, events, t);
        if AllLoggedIn(k, t) {
          CoveredExactly(k, t);
        }
      }
    } else {
      var events, t := UncoveringRun(k, st);
      assert Uncovers(k, st, events, t);
    }
  }

  // ---- The join check

  function NotJoined(t: Table, checkList: seq<Name>): seq<Name> {
    if checkList == [] then []
    else (if checkList[0] in t && !t[checkList[0]].joined then [checkList[0]] else []) + NotJoined(t, checkList[1..])
  }

  lemma {:induction false} NotJoinedConcat(t: Table, a: seq<Name>, b: seq<Name>)
    ensures NotJoined(t, a + b) == NotJoined(t, a) + NotJoined(t, b)
  {
    if a == [] {
      assert a + b == b;
    } else {
      assert (a + b)[1..] == a[1..] + b;
      NotJoinedConcat(t, a[1..], b);
    }
  }

  /** `at` are the places of all listed channels that are known and not joined, in order. */
  ghost predicate FindsAt(t: Table, checkList: seq<Name>, found: seq<Name>, at: seq<nat>) {
    && |at| == |found|
    && (forall k :: 0 <= k < |at| ==> at[k] < |checkList| && checkList[at[k]] == found[k])
    && (forall k, l :: 0 <= k < l < |at| ==> at[k] < at[l])
    && (forall i: nat :: i < |checkList| ==>
          (i in at <==> checkList[i] in t && !t[checkList[i]].joined))
  }

  lemma FindsNext(t: Table, checkList: seq<Name>, found: seq<Name>, at: seq<nat>, n: Name)
    requires FindsAt(t, checkList, found, at)
    ensures n in t && !t[n].joined ==> FindsAt(t, checkList + [n], found + [n], at + [|checkList|])
    ensures n !in t || t[n].joined ==> FindsAt(t, checkList + [n], found, at)
  {
  }

  lemma {:induction false} NotJoinedFinds(t: Table, checkList: seq<Name>) returns (at: seq<nat>)
    ensures FindsAt(t, checkList, NotJoined(t, checkList), at)
  {
    if checkList == [] {
      at := [];
    } else {
      var init, last := checkList[..|checkList| - 1], checkList[|checkList| - 1];
      at := NotJoinedFinds(t, init);
      NotJoinedConcat(t, init, [last]);
      assert [last][1..] == [] && checkList == init + [last];
      assert NotJoined(t, init) + [] == NotJoined(t, init);
      hide FindsAt;
      FindsNext(t, init, NotJoined(t, init), at, last);
      if last in t && !t[last].joined {
        at := at + [|init|];
      }
    }
  }

  /** A join notice takes its channel, and no other, out of what the next check finds. */
  lemma {:induction false} NoticeTakesOut(t: Table, n: Name, checkList: seq<Name>)
    ensures multiset(NotJoined(MarkJoined(t, n), checkList)) == multiset(NotJoined(t, checkList))[n := 0]
  {
    if checkList != [] {
      var first, more := checkList[0], checkList[1..];
      NoticeTakesOut(t, n, more);
      var one := if first in t && !t[first].joined then [first] else [];
      assert NotJoined(t, checkList) == one + NotJoined(t, more);
    }
  }

  lemma {:induction false} NotJoinedMember(t: Table, checkList: seq<Name>, n: Name)
    ensures n in NotJoined(t, checkList) <==> n in checkList && n in t && !t[n].joined
  {
    if checkList != [] {
      NotJoinedMember(t, checkList[1..], n);
    }
  }

  /** The next check looks only at what the last one found.  That finds what checking the whole list again
      would, if and only if no listed channel has stopped being joined, or come into the table unjoined, in
      between, as it does when its session disconnects. */
  lemma RecheckMissesNothing(t: Table, later: Table, checkList: seq<Name>)
    ensures NotJoined(later, NotJoined(t, checkList)) == NotJoined(later, checkList) <==>
            forall n :: n in checkList && n in later && !later[n].joined ==> n in t && !t[n].joined
  {
    if forall n :: n in checkList && n in later && !later[n].joined ==> n in t && !t[n].joined {
      RecheckFindsAll(t, later, checkList);
    }
    if NotJoined(later, NotJoined(t, checkList)) == NotJoined(later, checkList) {
      forall n | n in checkList && n in later && !later[n].joined ensures n in t && !t[n].joined {
        NotJoinedMember(later, checkList, n);
        NotJoinedMember(later, NotJoined(t, checkList), n);
        NotJoinedMember(t, checkList, n);
      }
    }
  }

  lemma {:induction false} RecheckFindsAll(t: Table, later: Table, checkList: seq<Name>)
    requires forall n :: n in checkList && n in later && !later[n].joined ==> n in t && !t[n].joined
    ensures NotJoined(later, NotJoined(t, checkList)) == NotJoined(later, checkList)
  {
    if checkList != [] {
      var first := if checkList[0] in t && !t[checkList[0]].joined then [checkList[0]] else [];
      NotJoinedConcat(later, first, NotJoined(t, checkList[1..]));
      RecheckFindsAll(t, later, checkList[1..]);
      assert checkList == [checkList[0]] + checkList[1..];
      assert [checkList[0]][1..] == [];
    }
  }

  /** The check is over exactly when every listed channel still in the table has been joined. */
  lemma {:induction false} CheckIsOver(t: Table, checkList: seq<Name>)
    ensures NotJoined(t, checkList) == [] <==> forall n :: n in checkList && n in t ==> t[n].joined
  {
    if checkList != [] {
      CheckIsOver(t, checkList[1..]);
      assert checkList == [checkList[0]] + checkList[1..];
    }
  }
}

// The list object and the handlers of the client that drive it.
module ChannelLists {
  import opened Options
  import opened ChannelSteps

  class IRCChannelList {
    const sessionCount: nat
    var names: seq<Name>
    var channels: Table

    ghost predicate Valid()
      reads this
    {
      sessionCount > 0 && Lists(names, channels) && |names| == |channels|
    }

    constructor (sessionCount: nat)
      requires sessionCount > 0
      ensures Valid() && names == [] && this.sessionCount == sessionCount
    {
      this.sessionCount := sessionCount;
      names, channels := [], map[];
    }

    ghost function UnattachedCount(): nat
      reads this
    {
      |set n | n in channels && channels[n].session == None|
    }

    /** Each loaded name becomes one detached channel that is not joined. */
    method Load(loaded: seq<Name>)
      requires Valid()
      modifies this
      ensures Valid()
      ensures forall n :: n in channels <==> n in loaded
      ensures forall n :: n in channels ==> channels[n] == Channel(None, false)
      ensures Inv(sessionCount, State(names, channels, {})) && Bounds(sessionCount, State(names, channels, {}))
    {
      hide HeldBy, Unattached, Capacity, Allowance, SessionsBound, UnattachedBound, Bounds, Inv, Lists;
      var temp: Table := map[];
      var order: seq<Name> := [];
      ListsNone();
      for i := 0 to |loaded|
        invariant Lists(order, temp) && |order| == |temp|
        invariant forall n :: n in temp <==> n in loaded[..i]
        invariant forall n :: n in temp ==> temp[n] == Channel(None, false)
      {
        var name := loaded[i];
        if name !in temp {
          ListsOneMore(order, temp, name, Channel(None, false));
          order := order + [name];
          temp := temp[name := Channel(None, false)];
        }
      }
      names, channels := order, temp;
      LoadedInv(sessionCount, names, channels);
    }

    method ReserveChannelsForSession(session: Session) returns (result: seq<Name>)
      requires Valid()
      modifies this`channels
      ensures Valid()
      ensures (channels, result) == Reserve(names, old(channels), session, Capacity(|old(channels)|, sessionCount))
      ensures |result| == Min(|names| / sessionCount + 1, Unattached(names, old(channels)))
      ensures forall i: nat :: i < |names| ==>
                (names[i] in result <==>
                 old(channels)[names[i]].session == None
                 && Unattached(names[..i], old(channels)) < |names| / sessionCount + 1)
      ensures channels.Keys == old(channels).Keys
      ensures forall n :: n in channels ==>
                channels[n] == if n in result then old(channels)[n].(session := Some(session)) else old(channels)[n]
      ensures forall n :: n in result ==>
                n in old(channels) && n in channels
                && old(channels)[n].session == None && channels[n].session == Some(session)
    {
      ghost var before := channels;
      var capacity := Capacity(|channels|, sessionCount);
      assert capacity == |names| / sessionCount + 1;
      hide Lists, AllIn, Distinct, HeldBy, Unattached, Capacity, Reserve;
      ListsFacts(names, channels);
      ReserveIsOfFirst(names, before, session, capacity);
      result := AttachInOrder(session, capacity);
      ListsSameKeys(names, before, channels);
    }

    /** The loop of reserveChannelsForSession. */
    method AttachInOrder(session: Session, capacity: nat) returns (result: seq<Name>)
      requires AllIn(names, channels) && capacity > 0
      modifies this`channels
      ensures (channels, result) == Reserve(names, old(channels), session, capacity)
    {
      result := [];
      ghost var goal := Reserve(names, channels, session, capacity);
      assert names[0..] == names && [] + goal.1 == goal.1;
      var i := 0;
      while i != |names|
        invariant i <= |names|
        invariant AllIn(names[i..], channels)
        invariant |result| < capacity
        invariant ReserveGoesOn(names[i..], channels, session, capacity - |result|, result, goal)
        decreases |names| - i
      {
        hide Reserve, ReserveGoesOn;
        var name := names[i];
        assert names[i..][0] == name && names[i..][1..] == names[i + 1..];
        ReserveUnfolds(names[i..], channels, session, capacity - |result|, result, goal);
        i := i + 1;
        if channels[name].session != None {
          continue;
        }
        channels := Attach(channels, name, session);
        result := result + [name];
        if |result| == capacity {
          ReserveEnds(names[i..], channels, session, 0, result, goal);
          return;
        }
      }
      ReserveEnds(names[i..], channels, session, capacity - |result|, result, goal);
    }

    method DetachAndPartFromSession(session: Session)
      requires Valid()
      modifies this`channels
      ensures Valid()
      ensures channels == Detach(old(channels), session)
      ensures forall n :: n in channels <==> n in old(channels)
      ensures forall n :: n in channels ==>
                if old(channels)[n].session == Some(session)
                then channels[n].session == None && !channels[n].joined
                else channels[n] == old(channels)[n]
      ensures HeldBy(names, channels, session) == 0
    {
      ghost var before := channels;
      ListsFacts(names, channels);
      DetachListedEnds(names, channels, session);
      DetachCounts(names, before, session);
      hide Lists, HeldBy, Detach;
      DetachInOrder(session);
      ListsSameKeys(names, before, channels);
    }

    /** The loop of detachAndPartFromSession. */
    method DetachInOrder(session: Session)
      requires AllIn(names, channels) && Distinct(names)
      modifies this`channels
      ensures channels == DetachListed(old(channels), names, session)
    {
      ghost var before := channels;
      assert DetachListed(before, [], session) == before;
      hide DetachListed;
      for i := 0 to |names|
        invariant channels == DetachListed(before, names[..i], session)
      {
        var name := names[i];
        assert names[..i + 1] == names[..i] + [name];
        DetachListedStep(before, names[..i], name, session);
        if channels[name].session == Some(session) {
          channels := channels[name := channels[name].(session := None)];
          channels := channels[name := channels[name].(joined := false)];
          assert channels == DetachListed(before, names[..i], session)[name := Channel(None, false)];
        }
      }
      assert names[..|names|] == names;
    }

    method MarkChannelJoined(name: Name)
      requires Valid()
      modifies this`channels
      ensures Valid()
      ensures channels == MarkJoined(old(channels), name)
      ensures channels.Keys == old(channels).Keys
      ensures forall n :: n in channels ==>
                channels[n] == if n == name then Channel(old(channels)[n].session, true) else old(channels)[n]
    {
      ghost var before := channels;
      if name in channels {
        channels := channels[name := channels[name].(joined := true)];
      }
      assert channels.Keys == before.Keys;
      ListsSameKeys(names, before, channels);
    }

    method SelectNotJoinedChannels(checkList: seq<Name>) returns (result: seq<Name>)
      requires Valid()
      ensures result == NotJoined(channels, checkList)
      ensures exists at :: FindsAt(channels, checkList, result, at)
    {
      result := [];
      for i := 0 to |checkList|
        invariant result == NotJoined(channels, checkList[..i])
      {
        var channel := checkList[i];
        assert checkList[..i + 1] == checkList[..i] + [channel];
        NotJoinedConcat(channels, checkList[..i], [channel]);
        assert [channel][1..] == [];
        if channel in channels {
          if !channels[channel].joined {
            result := result + [channel];
          }
        }
      }
      assert checkList[..|checkList|] == checkList;
      ghost var at := NotJoinedFinds(channels, checkList);
    }
  }

  /** The client's part: which sessions are logged in, and what it does with its channels when that
      changes. */
  class IRCClient {
    const channels: IRCChannelList
    ghost var loggedIn: set<Session>

    ghost function Snapshot(): State
      reads this, channels
    {
      State(channels.names, channels.channels, loggedIn)
    }

    ghost predicate Valid()
      reads this, channels
    {
      channels.Valid() && Inv(channels.sessionCount, Snapshot())
    }

    constructor (channels: IRCChannelList)
      requires channels.Valid() && Inv(channels.sessionCount, State(channels.names, channels.channels, {}))
      ensures Valid() && this.channels == channels && loggedIn == {}
      ensures Bounds(channels.sessionCount, State(channels.names, channels.channels, {})) ==> WithinBounds()
    {
      this.channels := channels;
      loggedIn := {};
    }

    ghost predicate WithinBounds()
      requires Valid()
      reads this, channels
    {
      Bounds(channels.sessionCount, Snapshot())
    }

    /** The channels to send JOIN for, which are also those to check later.  A session that still holds
        channels is given more of them. */
    method OnLoggedIn(session: Session) returns (reserved: seq<Name>)
      requires Valid() && session < channels.sessionCount
      modifies this, channels
      ensures Valid()
      ensures Snapshot() == Apply(channels.sessionCount, old(Snapshot()), LogIn(session))
      ensures |reserved| == Min(|channels.names| / channels.sessionCount + 1, old(channels.UnattachedCount()))
      ensures channels.channels.Keys == old(channels.channels).Keys
      ensures forall n :: n in reserved ==> n in old(channels.channels) && old(channels.channels)[n].session == None
      ensures forall n :: n in channels.channels ==>
                channels.channels[n] ==
                if n in reserved then old(channels.channels)[n].(session := Some(session))
                else old(channels.channels)[n]
      ensures old(WithinBounds()) ==>
                && (WithinBounds() <==> old(Fits(channels.sessionCount, Snapshot(), LogIn(session))))
                && (AllLoggedIn(channels.sessionCount, Snapshot()) ==> Covered(Snapshot()))
    {
      var k := channels.sessionCount;
      StepKeepsInv(k, Snapshot(), LogIn(session));
      LogInKeepsUnattachedBound(k, Snapshot(), session);
      UnattachedAreFree(channels.names, channels.channels);
      hide Lists, HeldBy, Unattached, Reserve, Fits, Capacity, FreeSet, SessionsBound, UnattachedBound;
      reserved := channels.ReserveChannelsForSession(session);
      loggedIn := loggedIn + {session};
      if AllLoggedIn(k, Snapshot()) {
        CoveredExactly(k, Snapshot());
      }
    }

    method OnDisconnected(session: Session)
      requires Valid() && session < channels.sessionCount
      modifies this, channels
      ensures Valid()
      ensures Snapshot() == Apply(channels.sessionCount, old(Snapshot()), Disconnect(session))
      ensures channels.channels.Keys == old(channels.channels).Keys && loggedIn == old(loggedIn) - {session}
      ensures forall n :: n in channels.channels ==>
                channels.channels[n] ==
                if old(channels.channels)[n].session == Some(session) then Channel(None, false)
                else old(channels.channels)[n]
      ensures old(WithinBounds()) ==> WithinBounds()
    {
      StepKeepsInv(channels.sessionCount, Snapshot(), Disconnect(session));
      channels.DetachAndPartFromSession(session);
      loggedIn := loggedIn - {session};
    }

    method EvtChannelJoined(name: Name)
      requires Valid()
      modifies channels
      ensures Valid()
      ensures Snapshot() == Apply(channels.sessionCount, old(Snapshot()), ChannelJoined(name))
      ensures channels.channels.Keys == old(channels.channels).Keys
      ensures forall n :: n in channels.channels ==>
                channels.channels[n] ==
                if n == name then Channel(old(channels.channels)[n].session, true) else old(channels.channels)[n]
      ensures old(WithinBounds()) ==> WithinBounds()
    {
      StepKeepsInv(channels.sessionCount, Snapshot(), ChannelJoined(name));
      channels.MarkChannelJoined(name);
    }

    /** `again` says whether another check is scheduled, for the channels in rejoinList. */
    method EvtCheckJoinedChannels(checkList: seq<Name>) returns (rejoinList: seq<Name>, again: bool)
      requires Valid()
      ensures rejoinList == NotJoined(channels.channels, checkList)
      ensures !again <==> forall n :: n in checkList && n in channels.channels ==> channels.channels[n].joined
    {
      rejoinList := channels.SelectNotJoinedChannels(checkList);
      CheckIsOver(channels.channels, checkList);
      again := rejoinList != [];
    }
  }
}
