// The batches of Storage.cpp: messages are stored in a batch under its mutex, and a batch is swapped out
// under the mutex and handed to process() after it is released.  The source has the same code twice,
// for chat messages and for bot log records.
module StorageSteps {
  import opened Modular

  type Message = nat

  /** `taken` are the batches swapped out so far, in order; a place in it is a ticket for one process()
      call.  `calls` are the tickets of the calls made so far, in the order in which they were made. */
  datatype State = State(
    batch: seq<Message>,
    taken: seq<seq<Message>>,
    calls: seq<nat>,
    accepted: seq<Message>,
    dropped: seq<Message>)

  const EMPTY: State := State([], [], [], [], [])

  datatype Action =
    | Store(message: Message)   // the locked part of store
    | Take                      // the locked part of a flush
    | Process(ticket: nat)      // the process() call on a batch swapped out earlier

  predicate Enabled(s: State, a: Action) {
    a.Process? ==> a.ticket < |s.taken| && a.ticket !in s.calls
  }

  function Apply(batchSize: nat, s: State, a: Action): State {
    match a
    case Store(m) =>
      if |s.batch| < batchSize then s.(batch := s.batch + [m], accepted := s.accepted + [m])
      else s.(batch := [], taken := s.taken + [s.batch], dropped := s.dropped + [m])
    case Take => s.(batch := [], taken := s.taken + [s.batch])
    case Process(t) => s.(calls := s.calls + [t])
  }

  function Flatten(batches: seq<seq<Message>>): seq<Message> {
    if batches == [] then [] else Flatten(batches[..|batches| - 1]) + batches[|batches| - 1]
  }

  lemma FlattenSnoc(batches: seq<seq<Message>>, last: seq<Message>)
    ensures Flatten(batches + [last]) == Flatten(batches) + last
  {
    assert (batches + [last])[..|batches|] == batches;
  }

  /** Batches in ticket order followed by the current one are what was put in a batch, in arrival order;
      none is larger than batchSize, and none is processed twice. */
  ghost predicate Inv(batchSize: nat, s: State) {
    && s.accepted == Flatten(s.taken) + s.batch
    && |s.batch| <= batchSize
    && (forall i :: 0 <= i < |s.taken| ==> |s.taken[i]| <= batchSize)
    && (forall i :: 0 <= i < |s.calls| ==> s.calls[i] < |s.taken|)
    && (forall i, j :: 0 <= i < j < |s.calls| ==> s.calls[i] != s.calls[j])
  }

  lemma StepKeepsInv(batchSize: nat, s: State, a: Action)
    requires Inv(batchSize, s) && Enabled(s, a)
    ensures Inv(batchSize, Apply(batchSize, s, a))
  {
    FlattenSnoc(s.taken, s.batch);
    match a {
      case Store(m) =>
        if |s.batch| < batchSize {
          assert Flatten(s.taken) + s.batch + [m] == Flatten(s.taken) + (s.batch + [m]);
        }
      case Take =>
      case Process(t) =>
    }
  }

  ghost predicate IsRun(batchSize: nat, s: State, actions: seq<Action>, t: State)
    decreases |actions|
  {
    if actions == [] then t == s
    else Enabled(s, actions[0]) && IsRun(batchSize, Apply(batchSize, s, actions[0]), actions[1..], t)
  }

  function Stored(actions: seq<Action>): seq<Message> {
    if actions == [] then []
    else StoredBy(actions[0]) + Stored(actions[1..])
  }

  /** One process() call at most for each batch: exactly one for those processed. */
  lemma {:induction false} ProcessCalls(batchSize: nat, s: State, actions: seq<Action>, t: State, ticket: nat)
    requires IsRun(batchSize, s, actions, t)
    ensures multiset(actions)[Process(ticket)] ==
            if ticket in t.calls && ticket !in s.calls then 1 else 0
    ensures ticket in s.calls ==> ticket in t.calls
    decreases |actions|
  {
    if actions != [] {
      assert actions == [actions[0]] + actions[1..];
      ProcessCalls(batchSize, Apply(batchSize, s, actions[0]), actions[1..], t, ticket);
    }
  }

  /** `all` is `a` and `b` merged, each in its own order. */
  ghost predicate Merges(a: seq<Message>, b: seq<Message>, all: seq<Message>) {
    if all == [] then a == [] && b == []
    else
      var rest, last := all[..|all| - 1], all[|all| - 1];
      || (a != [] && a[|a| - 1] == last && Merges(a[..|a| - 1], b, rest))
      || (b != [] && b[|b| - 1] == last && Merges(a, b[..|b| - 1], rest))
  }

  lemma MergesSnoc(a: seq<Message>, b: seq<Message>, all: seq<Message>, m: Message)
    requires Merges(a, b, all)
    ensures Merges(a + [m], b, all + [m]) && Merges(a, b + [m], all + [m])
  {
    assert (all + [m])[..|all|] == all;
    assert (a + [m])[..|a|] == a;
    assert (b + [m])[..|b|] == b;
  }

  function StoredBy(a: Action): seq<Message> {
    if a.Store? then [a.message] else []
  }

  lemma StepMerges(batchSize: nat, s: State, a: Action, before: seq<Message>)
    requires Merges(s.accepted, s.dropped, before)
    ensures var t := Apply(batchSize, s, a);
            Merges(t.accepted, t.dropped, before + StoredBy(a))
  {
    hide Merges;
    if a.Store? {
      MergesSnoc(s.accepted, s.dropped, before, a.message);
    } else {
      assert before + [] == before;
    }
  }

  /** A run keeps the account, and files each stored message, in the order of the stores, either with the
      accepted or with the dropped ones. */
  lemma {:induction false} RunKeepsInv(batchSize: nat, s: State, actions: seq<Action>, t: State, before: seq<Message>)
    requires Inv(batchSize, s) && IsRun(batchSize, s, actions, t)
    requires Merges(s.accepted, s.dropped, before)
    ensures Inv(batchSize, t)
    ensures Merges(t.accepted, t.dropped, before + Stored(actions))
    decreases |actions|
  {
    hide Merges, Inv, Apply, StoredBy;
    if actions == [] {
      assert before + [] == before;
    } else {
      var a, more := actions[0], actions[1..];
      StepKeepsInv(batchSize, s, a);
      StepMerges(batchSize, s, a, before);
      RunKeepsInv(batchSize, Apply(batchSize, s, a), more, t, before + StoredBy(a));
      assert before + StoredBy(a) + Stored(more) == before + (StoredBy(a) + Stored(more));
    }
  }

  ghost predicate AllProcessed(s: State) {
    forall i: nat :: i < |s.taken| ==> i in s.calls
  }

  /** With nothing left in the batch, the batches taken are all there ever was. */
  lemma NothingLeft(batchSize: nat, s: State)
    requires Inv(batchSize, s) && s.batch == []
    ensures Flatten(s.taken) == s.accepted
  {
  }

  // ---- What the process calls deliver

  /** The messages of the process calls, in the order of the calls. */
  function Delivered(taken: seq<seq<Message>>, calls: seq<nat>): seq<Message> {
    if calls == [] then []
    else
      var last := calls[|calls| - 1];
      Delivered(taken, calls[..|calls| - 1]) + (if last < |taken| then taken[last] else [])
  }

  /** Where the messages of a ticket begin among the accepted ones. */
  function Offset(taken: seq<seq<Message>>, t: nat): nat
    requires t <= |taken|
  {
    |Flatten(taken[..t])|
  }

  lemma OffsetStep(taken: seq<seq<Message>>, t: nat)
    requires t < |taken|
    ensures Flatten(taken[..t + 1]) == Flatten(taken[..t]) + taken[t]
    ensures Offset(taken, t + 1) == Offset(taken, t) + |taken[t]|
  {
    assert taken[..t + 1] == taken[..t] + [taken[t]];
    FlattenSnoc(taken[..t], taken[t]);
  }

  lemma {:induction false} FlattenPrefix(taken: seq<seq<Message>>, t: nat, u: nat)
    requires t <= u <= |taken|
    ensures Flatten(taken[..t]) <= Flatten(taken[..u])
    ensures Offset(taken, t) <= Offset(taken, u)
    decreases u - t
  {
    if t < u {
      FlattenPrefix(taken, t, u - 1);
      OffsetStep(taken, u - 1);
    }
  }

  /** Every process call handles a contiguous piece of the accepted messages, in order. */
  lemma CallIsPiece(batchSize: nat, s: State, t: nat)
    requires Inv(batchSize, s) && t < |s.taken|
    ensures Offset(s.taken, t) + |s.taken[t]| <= |s.accepted|
    ensures s.accepted[Offset(s.taken, t)..Offset(s.taken, t) + |s.taken[t]|] == s.taken[t]
  {
    OffsetStep(s.taken, t);
    FlattenPrefix(s.taken, t + 1, |s.taken|);
    assert s.taken[..|s.taken|] == s.taken;
    var whole, upTo := Flatten(s.taken), Flatten(s.taken[..t + 1]);
    hide Flatten;
    assert upTo <= whole <= s.accepted;
    assert forall i :: 0 <= i < |s.taken[t]| ==> upTo[Offset(s.taken, t) + i] == s.taken[t][i];
  }

  /** Each place before an offset belongs to an earlier batch. */
  lemma {:induction false} PlaceHasTicket(taken: seq<seq<Message>>, t: nat, p: nat) returns (u: nat)
    requires t <= |taken| && p < Offset(taken, t)
    ensures u < t && Offset(taken, u) <= p < Offset(taken, u) + |taken[u]|
  {
    assert taken[..0] == [];
    u := t - 1;
    OffsetStep(taken, u);
    if p < Offset(taken, u) {
      u := PlaceHasTicket(taken, u, p);
    }
  }

  lemma {:induction false} DeliveredMember(taken: seq<seq<Message>>, calls: seq<nat>, m: Message)
    ensures m in Delivered(taken, calls) <==> exists c :: c in calls && c < |taken| && m in taken[c]
  {
    if calls != [] {
      var init, last := calls[..|calls| - 1], calls[|calls| - 1];
      assert calls == init + [last];
      DeliveredMember(taken, init, m);
    }
  }

  /** A batch swapped out later changes nothing about what was delivered. */
  lemma {:induction false} DeliveredExtends(taken: seq<seq<Message>>, more: seq<Message>, calls: seq<nat>)
    requires forall i :: 0 <= i < |calls| ==> calls[i] < |taken|
    ensures Delivered(taken + [more], calls) == Delivered(taken, calls)
  {
    if calls != [] {
      DeliveredExtends(taken, more, calls[..|calls| - 1]);
    }
  }

  lemma DeliveredSnoc(taken: seq<seq<Message>>, calls: seq<nat>, t: nat)
    requires t < |taken|
    ensures Delivered(taken, calls + [t]) == Delivered(taken, calls) + taken[t]
  {
    assert (calls + [t])[..|calls|] == calls;
  }

  /** What the database has been sent so far is a prefix of what was accepted, in arrival order. */
  ghost predicate InOrder(s: State) {
    Delivered(s.taken, s.calls) <= s.accepted
  }

  ghost predicate Distinct(messages: seq<Message>) {
    forall i, j :: 0 <= i < j < |messages| ==> messages[i] != messages[j]
  }

  /** A call is in turn if no older batch with messages is still waiting for its own. */
  predicate InTurn(s: State, t: nat) {
    t < |s.taken| ==> s.taken[t] == [] || forall u: nat :: u < t && s.taken[u] != [] ==> u in s.calls
  }

  /** A message tells the batch it is in. */
  lemma MessageTellsTicket(batchSize: nat, s: State, t: nat, u: nat, m: Message)
    requires Inv(batchSize, s) && Distinct(s.accepted)
    requires t < |s.taken| && u < |s.taken| && m in s.taken[t] && m in s.taken[u]
    ensures t == u
  {
    CallIsPiece(batchSize, s, t);
    CallIsPiece(batchSize, s, u);
    var i :| 0 <= i < |s.taken[t]| && s.taken[t][i] == m;
    var j :| 0 <= j < |s.taken[u]| && s.taken[u][j] == m;
    assert s.accepted[Offset(s.taken, t) + i] == m == s.accepted[Offset(s.taken, u) + j];
    if t < u {
      OffsetStep(s.taken, t);
      FlattenPrefix(s.taken, t + 1, u);
    } else if u < t {
      OffsetStep(s.taken, u);
      FlattenPrefix(s.taken, u + 1, t);
    }
  }

  /** Whether the message at a place has been delivered is decided by the call for its batch. */
  lemma PlaceDelivered(batchSize: nat, s: State, t: nat, p: nat)
    requires Inv(batchSize, s) && Distinct(s.accepted)
    requires t < |s.taken| && Offset(s.taken, t) <= p < Offset(s.taken, t) + |s.taken[t]|
    ensures p < |s.accepted|
    ensures s.accepted[p] in Delivered(s.taken, s.calls) <==> t in s.calls
  {
    CallIsPiece(batchSize, s, t);
    var m := s.accepted[p];
    assert m == s.taken[t][p - Offset(s.taken, t)];
    DeliveredMember(s.taken, s.calls, m);
    forall c | c in s.calls && c < |s.taken| && m in s.taken[c] ensures c == t {
      MessageTellsTicket(batchSize, s, c, t, m);
    }
  }

  /** A place is delivered exactly when it lies in the delivered prefix. */
  lemma PlaceInPrefix(s: State, p: nat)
    requires InOrder(s) && Distinct(s.accepted) && p < |s.accepted|
    ensures s.accepted[p] in Delivered(s.taken, s.calls) <==> p < |Delivered(s.taken, s.calls)|
  {
    hide Delivered;
    var d := Delivered(s.taken, s.calls);
    if s.accepted[p] in d {
      var q :| 0 <= q < |d| && d[q] == s.accepted[p];
      assert s.accepted[q] == s.accepted[p];
    }
  }

  /** While the delivered messages are a prefix, its end is where a batch begins exactly when the call for
      that batch is in turn. */
  lemma PrefixEndsAtTurn(batchSize: nat, s: State, t: nat)
    requires Inv(batchSize, s) && Distinct(s.accepted) && InOrder(s)
    requires t < |s.taken| && t !in s.calls && s.taken[t] != []
    ensures |Delivered(s.taken, s.calls)| == Offset(s.taken, t) <==> InTurn(s, t)
  {
    var n, o := |Delivered(s.taken, s.calls)|, Offset(s.taken, t);
    PlaceDelivered(batchSize, s, t, o);
    PlaceInPrefix(s, o);
    assert n <= o;
    if n < o {
      var u := PlaceHasTicket(s.taken, t, n);
      PlaceDelivered(batchSize, s, u, n);
      PlaceInPrefix(s, n);
      assert u !in s.calls && s.taken[u] != [];
    } else {
      forall u: nat | u < t && s.taken[u] != [] ensures u in s.calls {
        OffsetStep(s.taken, u);
        FlattenPrefix(s.taken, u + 1, t);
        PlaceDelivered(batchSize, s, u, Offset(s.taken, u));
        PlaceInPrefix(s, Offset(s.taken, u));
      }
    }
  }

  /** A process call keeps the order if and only if it is in turn. */
  lemma CallKeepsOrderExactly(batchSize: nat, s: State, t: nat)
    requires Inv(batchSize, s) && Distinct(s.accepted) && InOrder(s) && Enabled(s, Process(t))
    ensures InOrder(Apply(batchSize, s, Process(t))) <==> InTurn(s, t)
  {
    var d, piece, o := Delivered(s.taken, s.calls), s.taken[t], Offset(s.taken, t);
    DeliveredSnoc(s.taken, s.calls, t);
    if piece == [] {
      assert d + piece == d;
    } else {
      PrefixEndsAtTurn(batchSize, s, t);
      CallIsPiece(batchSize, s, t);
      ExtendsPrefixExactly(d, piece, s.accepted, o);
    }
  }

  /** A non-empty piece extends a prefix exactly when it begins where the prefix ends. */
  lemma ExtendsPrefixExactly(d: seq<Message>, piece: seq<Message>, all: seq<Message>, o: nat)
    requires Distinct(all) && d <= all && piece != []
    requires o + |piece| <= |all| && all[o..o + |piece|] == piece
    ensures d + piece <= all <==> |d| == o
  {
    if d + piece <= all {
      assert all[|d|] == (d + piece)[|d|] == piece[0] == all[o];
    }
    if |d| == o {
      assert d + piece == all[..o + |piece|];
    }
  }

  lemma StoreAndTakeKeepOrder(batchSize: nat, s: State, a: Action)
    requires Inv(batchSize, s) && InOrder(s) && !a.Process?
    ensures InOrder(Apply(batchSize, s, a))
  {
    DeliveredExtends(s.taken, s.batch, s.calls);
  }

  /** At every moment of the run the delivered messages are the first of the accepted ones, in order. */
  ghost predicate AlwaysInOrder(batchSize: nat, s: State, actions: seq<Action>)
    decreases |actions|
  {
    InOrder(s) && (actions != [] ==> AlwaysInOrder(batchSize, Apply(batchSize, s, actions[0]), actions[1..]))
  }

  ghost predicate AllInTurn(batchSize: nat, s: State, actions: seq<Action>)
    decreases |actions|
  {
    actions != [] ==>
      && (actions[0].Process? ==> InTurn(s, actions[0].ticket))
      && AllInTurn(batchSize, Apply(batchSize, s, actions[0]), actions[1..])
  }

  lemma {:induction false} AcceptedGrows(batchSize: nat, s: State, actions: seq<Action>, t: State)
    requires IsRun(batchSize, s, actions, t)
    ensures s.accepted <= t.accepted
    decreases |actions|
  {
    if actions != [] {
      AcceptedGrows(batchSize, Apply(batchSize, s, actions[0]), actions[1..], t);
    }
  }

  lemma {:induction false} RunInOrderExactly(batchSize: nat, s: State, actions: seq<Action>, t: State)
    requires Inv(batchSize, s) && InOrder(s) && IsRun(batchSize, s, actions, t) && Distinct(t.accepted)
    ensures AlwaysInOrder(batchSize, s, actions) <==> AllInTurn(batchSize, s, actions)
    decreases |actions|
  {
    if actions != [] {
      hide Inv, InOrder, InTurn, Apply, Distinct;
      var a, u := actions[0], Apply(batchSize, s, actions[0]);
      StepKeepsInv(batchSize, s, a);
      AcceptedGrows(batchSize, s, actions, t);
      DistinctPrefix(s.accepted, t.accepted);
      if a.Process? {
        CallKeepsOrderExactly(batchSize, s, a.ticket);
      } else {
        StoreAndTakeKeepOrder(batchSize, s, a);
      }
      if InOrder(u) {
        RunInOrderExactly(batchSize, u, actions[1..], t);
      }
    }
  }

  lemma DistinctPrefix(a: seq<Message>, b: seq<Message>)
    requires a <= b && Distinct(b)
    ensures Distinct(a)
  {
  }

  /** The calls made are those of the batches with messages before ticket k, and they came in that order. */
  ghost predicate DeliveredUpTo(s: State, k: nat) {
    && k <= |s.taken|
    && Delivered(s.taken, s.calls) == Flatten(s.taken[..k])
    && forall u: nat :: u < |s.taken| && s.taken[u] != [] ==> (u in s.calls <==> u < k)
  }

  /** Empty batches add nothing. */
  lemma {:induction false} FlattenOverEmpty(taken: seq<seq<Message>>, k: nat, t: nat)
    requires k <= t <= |taken| && forall u: nat :: k <= u < t ==> taken[u] == []
    ensures Flatten(taken[..t]) == Flatten(taken[..k])
    decreases t - k
  {
    if k < t {
      OffsetStep(taken, t - 1);
      FlattenOverEmpty(taken, k, t - 1);
    }
  }

  /** A call in turn extends what is delivered by its own batch. */
  lemma CallExtends(s: State, t: nat, k: nat) returns (next: nat)
    requires Enabled(s, Process(t)) && DeliveredUpTo(s, k) && InTurn(s, t)
    ensures DeliveredUpTo(s.(calls := s.calls + [t]), next)
  {
    hide Delivered, Flatten;
    next := k;
    DeliveredSnoc(s.taken, s.calls, t);
    if s.taken[t] == [] {
      assert Flatten(s.taken[..k]) + [] == Flatten(s.taken[..k]);
    } else {
      FlattenOverEmpty(s.taken, k, t);
      OffsetStep(s.taken, t);
      next := t + 1;
    }
  }

  lemma StepInTurn(batchSize: nat, s: State, a: Action, k: nat) returns (next: nat)
    requires Inv(batchSize, s) && Enabled(s, a) && DeliveredUpTo(s, k)
    requires a.Process? ==> InTurn(s, a.ticket)
    ensures DeliveredUpTo(Apply(batchSize, s, a), next)
  {
    hide Delivered, Flatten;
    if a.Process? {
      next := CallExtends(s, a.ticket, k);
    } else {
      next := k;
      DeliveredExtends(s.taken, s.batch, s.calls);
      assert (s.taken + [s.batch])[..k] == s.taken[..k];
    }
  }

  lemma UpToIsInOrder(batchSize: nat, s: State, k: nat)
    requires Inv(batchSize, s) && DeliveredUpTo(s, k)
    ensures InOrder(s)
    ensures s.batch == [] && AllProcessed(s) ==> Delivered(s.taken, s.calls) == s.accepted
  {
    FlattenPrefix(s.taken, k, |s.taken|);
    assert s.taken[..|s.taken|] == s.taken;
    if AllProcessed(s) {
      FlattenOverEmpty(s.taken, k, |s.taken|);
    }
  }

  lemma {:induction false} RunInTurn(batchSize: nat, s: State, actions: seq<Action>, t: State, k: nat)
    requires Inv(batchSize, s) && DeliveredUpTo(s, k)
    requires IsRun(batchSize, s, actions, t) && AllInTurn(batchSize, s, actions)
    ensures AlwaysInOrder(batchSize, s, actions)
    ensures t.batch == [] && AllProcessed(t) ==> Delivered(t.taken, t.calls) == t.accepted
    decreases |actions|
  {
    UpToIsInOrder(batchSize, s, k);
    if actions != [] {
      hide Inv, InOrder, InTurn, Apply, Delivered, DeliveredUpTo, AllProcessed;
      StepKeepsInv(batchSize, s, actions[0]);
      var next := StepInTurn(batchSize, s, actions[0], k);
      RunInTurn(batchSize, Apply(batchSize, s, actions[0]), actions[1..], t, next);
    }
  }

  /** Arrival order, exactly.  If each call of a run is made while no older batch with messages is waiting
      for its own, the calls deliver the accepted messages in arrival order at every moment, and all of them
      once nothing is left in the batch or waiting.  If the messages can be told apart, they do so only
      then. */
  lemma ArrivalOrderExactly(batchSize: nat, actions: seq<Action>, t: State)
    requires IsRun(batchSize, EMPTY, actions, t)
    ensures AllInTurn(batchSize, EMPTY, actions) ==>
              && AlwaysInOrder(batchSize, EMPTY, actions)
              && (t.batch == [] && AllProcessed(t) ==> Delivered(t.taken, t.calls) == t.accepted)
    ensures Distinct(t.accepted) ==>
              (AlwaysInOrder(batchSize, EMPTY, actions) <==> AllInTurn(batchSize, EMPTY, actions))
  {
    if AllInTurn(batchSize, EMPTY, actions) {
      RunInTurn(batchSize, EMPTY, actions, t, 0);
    }
    if Distinct(t.accepted) {
      RunInOrderExactly(batchSize, EMPTY, actions, t);
    }
  }

  /** Without turns the order can fail: two flushes swap in one order and process in the other.  It takes a
      dispatcher that runs the handlers concurrently, as their thread-safe subscription allows; the agent is
      bound to one with a single worker thread (Controller.cpp:108-110), for which see
      OneThreadDeliversInOrder. */
  lemma FlushesMayOvertake()
    ensures var actions := [Store(1), Take, Store(2), Take, Process(1), Process(0)];
            exists t ::
              && IsRun(2, EMPTY, actions, t)
              && t.batch == [] && AllProcessed(t)
              && t.accepted == [1, 2]
              && Delivered(t.taken, t.calls) == [2, 1]
  {
    var s1 := State([1], [], [], [1], []);
    var s2 := State([], [[1]], [], [1], []);
    var s3 := State([2], [[1]], [], [1, 2], []);
    var s4 := State([], [[1], [2]], [], [1, 2], []);
    var s5 := State([], [[1], [2]], [1], [1, 2], []);
    var s6 := State([], [[1], [2]], [1, 0], [1, 2], []);
    RunOfSix(EMPTY, s1, s2, s3, s4, s5, s6);
    DeliveredSnoc(s6.taken, [], 1);
    DeliveredSnoc(s6.taken, [1], 0);
    assert [] + [1] == [1] && [1] + [0] == [1, 0];
  }

  lemma RunOfSix(s0: State, s1: State, s2: State, s3: State, s4: State, s5: State, s6: State)
    requires s1 == Apply(2, s0, Store(1)) && s2 == Apply(2, s1, Take) && s3 == Apply(2, s2, Store(2))
    requires s4 == Apply(2, s3, Take) && Enabled(s4, Process(1)) && s5 == Apply(2, s4, Process(1))
    requires Enabled(s5, Process(0)) && s6 == Apply(2, s5, Process(0))
    ensures IsRun(2, s0, [Store(1), Take, Store(2), Take, Process(1), Process(0)], s6)
  {
    hide Apply;
    var actions := [Store(1), Take, Store(2), Take, Process(1), Process(0)];
    assert IsRun(2, s6, [], s6);
    assert actions[5..] == [Process(0)] && actions[5..][1..] == [];
    assert IsRun(2, s5, actions[5..], s6);
    assert actions[4..][0] == Process(1) && actions[4..][1..] == actions[5..];
    assert IsRun(2, s4, actions[4..], s6);
    assert actions[3..][0] == Take && actions[3..][1..] == actions[4..];
    assert IsRun(2, s3, actions[3..], s6);
    assert actions[2..][0] == Store(2) && actions[2..][1..] == actions[3..];
    assert IsRun(2, s2, actions[2..], s6);
    assert actions[1..][0] == Take && actions[1..][1..] == actions[2..];
    assert IsRun(2, s1, actions[1..], s6);
  }

  // ---- When no schedule of the calls can go wrong

  /** A batch with messages that waits for its call. */
  predicate Waiting(s: State, t: nat) {
    t < |s.taken| && s.taken[t] != [] && t !in s.calls
  }

  /** Whichever outstanding call comes next, it is in turn. */
  ghost predicate AnyCallInTurn(s: State) {
    forall t: nat :: Enabled(s, Process(t)) ==> InTurn(s, t)
  }

  lemma AnyCallInTurnExactly(s: State)
    ensures AnyCallInTurn(s) <==> forall t: nat, u: nat :: Waiting(s, t) && Waiting(s, u) ==> t == u
  {
    if AnyCallInTurn(s) {
      forall t: nat, u: nat | Waiting(s, t) && Waiting(s, u)
        ensures t == u
      {
        assert InTurn(s, t) && InTurn(s, u);
      }
    }
    if forall t: nat, u: nat :: Waiting(s, t) && Waiting(s, u) ==> t == u {
      forall t: nat | Enabled(s, Process(t)) ensures InTurn(s, t) {
        if s.taken[t] != [] {
          assert Waiting(s, t);
          assert forall u: nat :: u < t && s.taken[u] != [] ==> Waiting(s, u) || u in s.calls;
        }
      }
    }
  }

  /** The step swaps a batch with messages out. */
  predicate Swaps(batchSize: nat, s: State, a: Action) {
    s.batch != [] && (a.Take? || (a.Store? && |s.batch| >= batchSize))
  }

  /** Messages are swapped out only while no others wait for their call. */
  predicate SwapsAlone(batchSize: nat, s: State, a: Action) {
    Swaps(batchSize, s, a) ==> forall t: nat :: t < |s.taken| ==> !Waiting(s, t)
  }

  lemma StepKeepsCallsInTurnExactly(batchSize: nat, s: State, a: Action)
    requires Inv(batchSize, s) && Enabled(s, a) && AnyCallInTurn(s)
    ensures AnyCallInTurn(Apply(batchSize, s, a)) <==> SwapsAlone(batchSize, s, a)
  {
    var t := Apply(batchSize, s, a);
    AnyCallInTurnExactly(s);
    AnyCallInTurnExactly(t);
    hide AnyCallInTurn, InTurn, Inv;
    if Swaps(batchSize, s, a) {
      assert forall u: nat :: u < |s.taken| ==> (Waiting(t, u) <==> Waiting(s, u));
      assert forall i :: 0 <= i < |s.calls| ==> s.calls[i] != |s.taken| by {
        CallsAreTickets(batchSize, s);
      }
      assert Waiting(t, |s.taken|);
      if AnyCallInTurn(t) {
        forall u: nat | u < |s.taken| ensures !Waiting(s, u) {
        }
      }
    } else {
      assert forall u: nat :: Waiting(t, u) ==> Waiting(s, u);
    }
  }

  lemma CallsAreTickets(batchSize: nat, s: State)
    requires Inv(batchSize, s)
    ensures forall i :: 0 <= i < |s.calls| ==> s.calls[i] < |s.taken|
  {
  }

  ghost predicate AlwaysAnyCallInTurn(batchSize: nat, s: State, actions: seq<Action>)
    decreases |actions|
  {
    AnyCallInTurn(s)
    && (actions != [] ==> AlwaysAnyCallInTurn(batchSize, Apply(batchSize, s, actions[0]), actions[1..]))
  }

  ghost predicate AllSwapsAlone(batchSize: nat, s: State, actions: seq<Action>)
    decreases |actions|
  {
    actions != [] ==>
      && SwapsAlone(batchSize, s, actions[0])
      && AllSwapsAlone(batchSize, Apply(batchSize, s, actions[0]), actions[1..])
  }

  /** The rule for callers, exactly: at every moment of the run every call that may come next is in turn if
      and only if messages are swapped out only while no earlier ones wait for their call. */
  lemma {:induction false} SwapsAloneExactly(batchSize: nat, s: State, actions: seq<Action>, t: State)
    requires Inv(batchSize, s) && AnyCallInTurn(s) && IsRun(batchSize, s, actions, t)
    ensures AlwaysAnyCallInTurn(batchSize, s, actions) <==> AllSwapsAlone(batchSize, s, actions)
    decreases |actions|
  {
    if actions != [] {
      hide Inv, AnyCallInTurn, SwapsAlone, Apply;
      var u := Apply(batchSize, s, actions[0]);
      StepKeepsInv(batchSize, s, actions[0]);
      StepKeepsCallsInTurnExactly(batchSize, s, actions[0]);
      if AnyCallInTurn(u) {
        SwapsAloneExactly(batchSize, u, actions[1..], t);
      }
    }
  }

  lemma {:induction false} AnyCallInTurnMeansAllInTurn(batchSize: nat, s: State, actions: seq<Action>, t: State)
    requires IsRun(batchSize, s, actions, t) && AlwaysAnyCallInTurn(batchSize, s, actions)
    ensures AllInTurn(batchSize, s, actions)
    decreases |actions|
  {
    if actions != [] {
      hide InTurn, Apply;
      AnyCallInTurnMeansAllInTurn(batchSize, Apply(batchSize, s, actions[0]), actions[1..], t);
    }
  }

  /** Callers that keep the rule get arrival order at every moment, and in the end everything. */
  lemma OneAtATimeDeliversInOrder(batchSize: nat, actions: seq<Action>, t: State)
    requires IsRun(batchSize, EMPTY, actions, t) && AllSwapsAlone(batchSize, EMPTY, actions)
    ensures AlwaysInOrder(batchSize, EMPTY, actions)
    ensures t.batch == [] && AllProcessed(t) ==> Delivered(t.taken, t.calls) == t.accepted
  {
    SwapsAloneExactly(batchSize, EMPTY, actions, t);
    AnyCallInTurnMeansAllInTurn(batchSize, EMPTY, actions, t);
    ArrivalOrderExactly(batchSize, actions, t);
  }

  /** Over every interleaving of stores, flushes and process calls: every stored message is either put in a
      batch or dropped, the former in arrival order; each batch is processed at most once, and each call
      handles a contiguous piece of what was put in, in order. */
  lemma EveryRunAccounts(batchSize: nat, actions: seq<Action>, t: State)
    requires IsRun(batchSize, EMPTY, actions, t)
    ensures Inv(batchSize, t)
    ensures Merges(t.accepted, t.dropped, Stored(actions))
    ensures forall i: nat :: multiset(actions)[Process(i)] == if i in t.calls then 1 else 0
    ensures forall i: nat :: i < |t.taken| ==>
              Offset(t.taken, i) + |t.taken[i]| <= |t.accepted|
              && t.accepted[Offset(t.taken, i)..Offset(t.taken, i) + |t.taken[i]|] == t.taken[i]
    ensures t.batch == [] ==> Flatten(t.taken) == t.accepted
  {
    RunKeepsInv(batchSize, EMPTY, actions, t, []);
    assert [] + Stored(actions) == Stored(actions);
    forall i: nat ensures multiset(actions)[Process(i)] == if i in t.calls then 1 else 0 {
      ProcessCalls(batchSize, EMPTY, actions, t, i);
    }
    forall i: nat | i < |t.taken|
      ensures Offset(t.taken, i) + |t.taken[i]| <= |t.accepted|
      ensures t.accepted[Offset(t.taken, i)..Offset(t.taken, i) + |t.taken[i]|] == t.taken[i]
    {
      CallIsPiece(batchSize, t, i);
    }
  }

  // ---- Nothing is lost or sent twice

  /** The messages of the batches that wait for their call. */
  function Outstanding(taken: seq<seq<Message>>, calls: seq<nat>): seq<Message> {
    if taken == [] then []
    else
      var last := |taken| - 1;
      Outstanding(taken[..last], calls) + (if last in calls then [] else taken[last])
  }

  lemma {:induction false} NothingCalled(taken: seq<seq<Message>>)
    ensures Outstanding(taken, []) == Flatten(taken)
  {
    if taken != [] {
      NothingCalled(taken[..|taken| - 1]);
    }
  }

  lemma {:induction false} AllCalled(taken: seq<seq<Message>>, calls: seq<nat>)
    requires forall t: nat :: t < |taken| ==> t in calls
    ensures Outstanding(taken, calls) == []
  {
    if taken != [] {
      AllCalled(taken[..|taken| - 1], calls);
    }
  }

  /** A call takes its batch out of those that wait, and no other. */
  lemma {:induction false} CallTakesOut(taken: seq<seq<Message>>, calls: seq<nat>, t: nat)
    requires t !in calls
    ensures multiset(Outstanding(taken, calls)) ==
            multiset(Outstanding(taken, calls + [t])) + multiset(if t < |taken| then taken[t] else [])
  {
    if taken != [] {
      var init, last := taken[..|taken| - 1], |taken| - 1;
      CallTakesOut(init, calls, t);
      var before, after := Outstanding(init, calls), Outstanding(init, calls + [t]);
      assert Outstanding(taken, calls) == before + if last in calls then [] else taken[last];
      assert Outstanding(taken, calls + [t]) == after + if last in calls || last == t then [] else taken[last];
      hide Outstanding;
      assert t < last ==> init[t] == taken[t];
    }
  }

  lemma {:induction false} CallsBalance(taken: seq<seq<Message>>, calls: seq<nat>)
    requires forall i :: 0 <= i < |calls| ==> calls[i] < |taken|
    requires forall i, j :: 0 <= i < j < |calls| ==> calls[i] != calls[j]
    ensures multiset(Delivered(taken, calls)) + multiset(Outstanding(taken, calls)) == multiset(Flatten(taken))
  {
    if calls == [] {
      NothingCalled(taken);
    } else {
      hide Outstanding, Flatten;
      var init, last := calls[..|calls| - 1], calls[|calls| - 1];
      assert calls == init + [last];
      CallsBalance(taken, init);
      CallTakesOut(taken, init, last);
      DeliveredSnoc(taken, init, last);
    }
  }

  /** However the calls overtake each other, at every moment each accepted message is in exactly one place:
      delivered, in a batch that waits for its call, or in the current batch.  Once nothing is left in the
      batch or waiting, the delivered messages are the accepted ones, each as often as it was accepted. */
  lemma NothingIsLostOrSentTwice(batchSize: nat, actions: seq<Action>, t: State)
    requires IsRun(batchSize, EMPTY, actions, t)
    ensures multiset(t.accepted) ==
            multiset(Delivered(t.taken, t.calls)) + multiset(Outstanding(t.taken, t.calls)) + multiset(t.batch)
    ensures t.batch == [] && AllProcessed(t) ==> multiset(Delivered(t.taken, t.calls)) == multiset(t.accepted)
  {
    RunKeepsInv(batchSize, EMPTY, actions, t, []);
    CallsBalance(t.taken, t.calls);
    hide Delivered, Outstanding, Flatten, IsRun;
    if AllProcessed(t) {
      AllCalled(t.taken, t.calls);
    }
  }

  // ---- Handlers one after another

  /** Everything swapped out has been processed, in the order of the swaps. */
  ghost predicate UpToDate(s: State) {
    Delivered(s.taken, s.calls) == Flatten(s.taken)
  }

  /** A swap directly followed by its call keeps a batch up to date. */
  lemma SwapAndCallKeepUpToDate(batchSize: nat, s: State, a: Action)
    requires Inv(batchSize, s) && UpToDate(s)
    requires a.Take? || (a.Store? && |s.batch| >= batchSize)
    ensures UpToDate(Apply(batchSize, Apply(batchSize, s, a), Process(|s.taken|)))
  {
    var taken, t := s.taken + [s.batch], |s.taken|;
    FlattenSnoc(s.taken, s.batch);
    DeliveredExtends(s.taken, s.batch, s.calls);
    DeliveredSnoc(taken, s.calls, t);
  }

  /** What the agent's handlers do to a batch: store a message, or flush. */
  datatype Handler = OnMessage(message: Message) | OnFlush

  /** The steps of one handler that nothing interrupts. */
  function Steps(batchSize: nat, s: State, h: Handler): seq<Action> {
    match h
    case OnMessage(m) => if |s.batch| < batchSize then [Store(m)] else [Store(m), Process(|s.taken|)]
    case OnFlush => [Take, Process(|s.taken|)]
  }

  function ApplyAll(batchSize: nat, s: State, actions: seq<Action>): State
    decreases |actions|
  {
    if actions == [] then s else ApplyAll(batchSize, Apply(batchSize, s, actions[0]), actions[1..])
  }

  /** The steps of handlers that run to their end one after another, as on a single worker thread. */
  function Schedule(batchSize: nat, s: State, handlers: seq<Handler>): seq<Action>
    decreases |handlers|
  {
    if handlers == [] then []
    else
      var steps := Steps(batchSize, s, handlers[0]);
      steps + Schedule(batchSize, ApplyAll(batchSize, s, steps), handlers[1..])
  }

  lemma ApplyAllShort(batchSize: nat, s: State, a: Action, b: Action)
    ensures ApplyAll(batchSize, s, [a]) == Apply(batchSize, s, a)
    ensures ApplyAll(batchSize, s, [a, b]) == Apply(batchSize, Apply(batchSize, s, a), b)
  {
    assert [a][1..] == [] && [a, b][1..] == [b] && [b][1..] == [];
    hide Apply;
    var t := Apply(batchSize, s, a);
    assert ApplyAll(batchSize, t, []) == t;
    assert ApplyAll(batchSize, t, [b]) == ApplyAll(batchSize, Apply(batchSize, t, b), []);
  }

  /** Between two handlers nothing that was swapped out is left to do. */
  ghost predicate Settled(batchSize: nat, s: State) {
    Inv(batchSize, s) && AllProcessed(s) && UpToDate(s)
  }

  lemma {:induction false} RunsJoin(batchSize: nat, s: State, a: seq<Action>, t: State, b: seq<Action>, u: State)
    requires IsRun(batchSize, s, a, t) && IsRun(batchSize, t, b, u)
    ensures IsRun(batchSize, s, a + b, u)
    ensures AllSwapsAlone(batchSize, s, a) && AllSwapsAlone(batchSize, t, b) ==> AllSwapsAlone(batchSize, s, a + b)
    decreases |a|
  {
    hide Apply, SwapsAlone;
    if a == [] {
      assert a + b == b;
    } else {
      assert (a + b)[0] == a[0] && (a + b)[1..] == a[1..] + b;
      RunsJoin(batchSize, Apply(batchSize, s, a[0]), a[1..], t, b, u);
    }
  }

  lemma RunOfTwo(batchSize: nat, s: State, a: Action, b: Action)
    requires Enabled(s, a) && Enabled(Apply(batchSize, s, a), b)
    requires SwapsAlone(batchSize, s, a) && SwapsAlone(batchSize, Apply(batchSize, s, a), b)
    ensures var t := Apply(batchSize, Apply(batchSize, s, a), b);
            && ApplyAll(batchSize, s, [a, b]) == t && IsRun(batchSize, s, [a, b], t)
            && AllSwapsAlone(batchSize, s, [a, b])
  {
    hide Apply, SwapsAlone, Enabled;
    var u := Apply(batchSize, s, a);
    var t := Apply(batchSize, u, b);
    assert [a, b][1..] == [b] && [b][1..] == [];
    assert IsRun(batchSize, t, [], t) && IsRun(batchSize, u, [b], t);
    assert AllSwapsAlone(batchSize, t, []) && AllSwapsAlone(batchSize, u, [b]);
    assert ApplyAll(batchSize, t, []) == t && ApplyAll(batchSize, u, [b]) == t;
  }

  /** A swap and its call, with nothing in between. */
  lemma SwapAndCallSettle(batchSize: nat, s: State, a: Action)
    requires Settled(batchSize, s) && (a.Take? || (a.Store? && |s.batch| >= batchSize))
    ensures var steps := [a, Process(|s.taken|)];
            var t := ApplyAll(batchSize, s, steps);
            IsRun(batchSize, s, steps, t) && AllSwapsAlone(batchSize, s, steps) && Settled(batchSize, t)
  {
    hide Flatten, Delivered, ApplyAll, IsRun, AllSwapsAlone;
    var u, p := Apply(batchSize, s, a), Process(|s.taken|);
    StepKeepsInv(batchSize, s, a);
    CallsAreTickets(batchSize, s);
    StepKeepsInv(batchSize, u, p);
    SwapAndCallKeepUpToDate(batchSize, s, a);
    assert SwapsAlone(batchSize, s, a) && SwapsAlone(batchSize, u, p);
    RunOfTwo(batchSize, s, a, p);
  }

  /** The messages that the handlers are given, in order. */
  function Given(handlers: seq<Handler>): seq<Message> {
    if handlers == [] then []
    else (if handlers[0].OnMessage? then [handlers[0].message] else []) + Given(handlers[1..])
  }

  /** A handler stores the message it is given, and a flush leaves nothing in the batch. */
  lemma HandlerDoes(batchSize: nat, s: State, h: Handler)
    ensures Stored(Steps(batchSize, s, h)) == Given([h])
    ensures h.OnFlush? ==> ApplyAll(batchSize, s, Steps(batchSize, s, h)).batch == []
  {
    var p := Process(|s.taken|);
    if h.OnFlush? {
      ApplyAllShort(batchSize, s, Take, p);
      StoredShort(Take, p);
    } else {
      StoredShort(Store(h.message), p);
    }
    assert [h][1..] == [];
  }

  lemma StoredShort(a: Action, b: Action)
    ensures Stored([a]) == StoredBy(a) && Stored([a, b]) == StoredBy(a) + StoredBy(b)
  {
    assert [a][1..] == [] && [a, b][1..] == [b] && [b][1..] == [];
    hide StoredBy;
    assert StoredBy(a) + [] == StoredBy(a) && StoredBy(b) + [] == StoredBy(b);
    assert Stored([b]) == StoredBy(b) + Stored([]);
  }

  lemma GivenFirst(handlers: seq<Handler>)
    requires handlers != []
    ensures Given(handlers) == Given([handlers[0]]) + Given(handlers[1..])
  {
    assert [handlers[0]][1..] == [];
  }

  lemma {:induction false} HandlersDo(batchSize: nat, s: State, handlers: seq<Handler>)
    ensures var actions := Schedule(batchSize, s, handlers);
            && Stored(actions) == Given(handlers)
            && (handlers != [] && handlers[|handlers| - 1].OnFlush? ==>
                  ApplyAll(batchSize, s, actions).batch == [])
    decreases |handlers|
  {
    if handlers != [] {
      hide Steps, ApplyAll, Stored, Given;
      var steps, more := Steps(batchSize, s, handlers[0]), handlers[1..];
      var u := ApplyAll(batchSize, s, steps);
      var rest := Schedule(batchSize, u, more);
      HandlerDoes(batchSize, s, handlers[0]);
      HandlersDo(batchSize, u, more);
      ApplyAllConcat(batchSize, s, steps, rest);
      StoredConcat(steps, rest);
      GivenFirst(handlers);
      assert more == [] ==> steps + rest == steps;
    }
  }

  lemma HandlerSettles(batchSize: nat, s: State, h: Handler)
    requires Settled(batchSize, s)
    ensures var steps := Steps(batchSize, s, h);
            var t := ApplyAll(batchSize, s, steps);
            IsRun(batchSize, s, steps, t) && AllSwapsAlone(batchSize, s, steps) && Settled(batchSize, t)
  {
    if h.OnFlush? {
      SwapAndCallSettle(batchSize, s, Take);
    } else if |s.batch| >= batchSize {
      SwapAndCallSettle(batchSize, s, Store(h.message));
    } else {
      var a := Store(h.message);
      StepKeepsInv(batchSize, s, a);
      var t := Apply(batchSize, s, a);
      assert [a][1..] == [] && IsRun(batchSize, t, [], t) && ApplyAll(batchSize, t, []) == t;
    }
  }

  lemma {:induction false} HandlersSettle(batchSize: nat, s: State, handlers: seq<Handler>)
    requires Settled(batchSize, s)
    ensures var actions := Schedule(batchSize, s, handlers);
            var t := ApplyAll(batchSize, s, actions);
            IsRun(batchSize, s, actions, t) && AllSwapsAlone(batchSize, s, actions) && Settled(batchSize, t)
    decreases |handlers|
  {
    if handlers != [] {
      hide Settled, Steps, IsRun, AllSwapsAlone, ApplyAll;
      var steps := Steps(batchSize, s, handlers[0]);
      var u := ApplyAll(batchSize, s, steps);
      HandlerSettles(batchSize, s, handlers[0]);
      HandlersSettle(batchSize, u, handlers[1..]);
      var more := Schedule(batchSize, u, handlers[1..]);
      RunsJoin(batchSize, s, steps, u, more, ApplyAll(batchSize, u, more));
      ApplyAllConcat(batchSize, s, steps, more);
    } else {
      assert IsRun(batchSize, s, [], s);
    }
  }

  lemma {:induction false} StoredConcat(a: seq<Action>, b: seq<Action>)
    ensures Stored(a + b) == Stored(a) + Stored(b)
  {
    hide StoredBy;
    if a == [] {
      assert a + b == b;
    } else {
      assert (a + b)[0] == a[0] && (a + b)[1..] == a[1..] + b;
      StoredConcat(a[1..], b);
    }
  }

  lemma {:induction false} ApplyAllConcat(batchSize: nat, s: State, a: seq<Action>, b: seq<Action>)
    ensures ApplyAll(batchSize, s, a + b) == ApplyAll(batchSize, ApplyAll(batchSize, s, a), b)
    decreases |a|
  {
    hide Apply;
    if a == [] {
      assert a + b == b;
    } else {
      assert (a + b)[0] == a[0] && (a + b)[1..] == a[1..] + b;
      ApplyAllConcat(batchSize, Apply(batchSize, s, a[0]), a[1..], b);
    }
  }

  /** One worker thread gives arrival order: whatever handlers run, each to its end before the next, their
      steps are a run that swaps only with nothing waiting.  The calls deliver in arrival order at every
      moment of it, and after each handler nothing is outstanding and the delivered messages followed by
      the batch are all that was accepted, in arrival order; after a flush all of it is delivered. */
  lemma OneThreadDeliversInOrder(batchSize: nat, handlers: seq<Handler>)
    ensures var actions := Schedule(batchSize, EMPTY, handlers);
            var t := ApplyAll(batchSize, EMPTY, actions);
            && IsRun(batchSize, EMPTY, actions, t)
            && AllSwapsAlone(batchSize, EMPTY, actions)
            && AlwaysInOrder(batchSize, EMPTY, actions)
            && Settled(batchSize, t)
            && Delivered(t.taken, t.calls) + t.batch == t.accepted
            && Merges(t.accepted, t.dropped, Given(handlers))
            && (handlers != [] && handlers[|handlers| - 1].OnFlush? ==> Delivered(t.taken, t.calls) == t.accepted)
  {
    var actions := Schedule(batchSize, EMPTY, handlers);
    HandlersSettle(batchSize, EMPTY, handlers);
    HandlersDo(batchSize, EMPTY, handlers);
    EveryRunAccounts(batchSize, actions, ApplyAll(batchSize, EMPTY, actions));
    hide Merges, Stored, Given, Flatten, IsRun, AllSwapsAlone;
    OneAtATimeDeliversInOrder(batchSize, actions, ApplyAll(batchSize, EMPTY, actions));
  }

  // ---- Counting stores

  /** A store is dropped exactly when it finds the batch full; it then empties the batch. */
  function StoreAll(batchSize: nat, messages: seq<Message>): State {
    if messages == [] then EMPTY
    else Apply(batchSize, StoreAll(batchSize, messages[..|messages| - 1]), Store(messages[|messages| - 1]))
  }

  /** n stores without a flush keep exactly n - n / (batchSize + 1) messages. */
  lemma {:induction false} StoresKeepExactly(batchSize: nat, messages: seq<Message>)
    ensures var s, n := StoreAll(batchSize, messages), |messages|;
            && |s.dropped| == n / (batchSize + 1)
            && |s.accepted| == n - n / (batchSize + 1)
            && |s.batch| == n % (batchSize + 1)
  {
    if messages != [] {
      StoresKeepExactly(batchSize, messages[..|messages| - 1]);
      DivModByOne(|messages| - 1, batchSize + 1);
    }
  }
}

module Storages {
  import opened StorageSteps

  /** What becomes of an insert: done, refused by the server, or ended by an exception of another kind. */
  datatype Insert = Inserted | ServerException | OtherException

  /** One batch with its mutex. */
  class Batch {
    const batchSize: nat
    var batch: seq<Message>
    var taken: seq<seq<Message>>
    var calls: seq<nat>
    ghost var accepted: seq<Message>
    ghost var dropped: seq<Message>

    ghost function Snapshot(): State
      reads this
    {
      State(batch, taken, calls, accepted, dropped)
    }

    ghost predicate Valid()
      reads this
    {
      Inv(batchSize, Snapshot())
    }

    constructor (batchSize: nat)
      ensures Valid() && Snapshot() == EMPTY && this.batchSize == batchSize
    {
      this.batchSize := batchSize;
      batch, taken, calls, accepted, dropped := [], [], [], [], [];
    }

    /** The locked part of store; `full` says that a batch was swapped out and must be processed. */
    method StoreLocked(message: Message) returns (full: bool, ticket: nat)
      requires Valid()
      modifies this
      ensures Valid() && Snapshot() == Apply(batchSize, old(Snapshot()), Store(message))
      ensures full <==> |old(batch)| == batchSize
      ensures calls == old(calls)
      ensures !full ==>
                && batch == old(batch) + [message] && taken == old(taken)
                && accepted == old(accepted) + [message] && dropped == old(dropped)
      ensures full ==>
                && taken == old(taken) + [old(batch)]
                && accepted == old(accepted) && dropped == old(dropped) + [message]
      ensures full ==>
                ticket == |old(taken)| < |taken| && taken[ticket] == old(batch) && batch == [] && ticket !in calls
    {
      StepKeepsInv(batchSize, Snapshot(), Store(message));
      ticket := |taken|;
      if |batch| < batchSize {
        batch := batch + [message];
        accepted := accepted + [message];
        full := false;
      } else {
        taken := taken + [batch];
        batch := [];
        dropped := dropped + [message];
        full := true;
      }
    }

    /** The locked part of a flush. */
    method SwapLocked() returns (ticket: nat)
      requires Valid()
      modifies this
      ensures Valid() && Snapshot() == Apply(batchSize, old(Snapshot()), Take)
      ensures taken == old(taken) + [old(batch)] && accepted == old(accepted) && calls == old(calls)
      ensures ticket == |old(taken)|
      ensures batch == [] && ticket < |taken| && taken[ticket] == old(batch) && ticket !in calls
    {
      StepKeepsInv(batchSize, Snapshot(), Take);
      ticket := |taken|;
      taken := taken + [batch];
      batch := [];
    }

    /** process(): an empty batch is not sent.  What becomes of the insert is up to the server.  Its own
        exception is caught and logged, any other one leaves process(); the batch is not tried again. */
    method ProcessBatch(ticket: nat, outcome: Insert) returns (inserted: seq<Message>, logged: bool, threw: bool)
      requires Valid() && ticket < |taken| && ticket !in calls
      modifies this
      ensures Valid() && Snapshot() == Apply(batchSize, old(Snapshot()), Process(ticket))
      ensures calls == old(calls) + [ticket] && taken == old(taken) && batch == old(batch)
      ensures accepted == old(accepted)
      ensures inserted == if outcome == Inserted then taken[ticket] else []
      ensures logged <==> taken[ticket] != [] && outcome != OtherException
      ensures threw <==> taken[ticket] != [] && outcome == OtherException
    {
      StepKeepsInv(batchSize, Snapshot(), Process(ticket));
      calls := calls + [ticket];
      if taken[ticket] == [] {
        return [], false, false;
      }
      inserted := if outcome == Inserted then taken[ticket] else [];
      threw := outcome == OtherException;
      logged := !threw;
    }

    /** store(), when nothing comes between its two parts. */
    method StoreMessage(message: Message, outcome: Insert) returns (threw: bool)
      requires Valid()
      modifies this
      ensures Valid()
      ensures |old(batch)| < batchSize ==> batch == old(batch) + [message] && taken == old(taken)
      ensures |old(batch)| == batchSize ==> batch == [] && taken == old(taken) + [old(batch)]
      ensures threw <==> |old(batch)| == batchSize && old(batch) != [] && outcome == OtherException
      ensures Snapshot() == ApplyAll(batchSize, old(Snapshot()), Steps(batchSize, old(Snapshot()), OnMessage(message)))
      ensures old(AllProcessed(Snapshot())) ==> AllProcessed(Snapshot())
      ensures old(UpToDate(Snapshot())) ==> UpToDate(Snapshot())
    {
      ghost var s := Snapshot();
      ApplyAllShort(batchSize, s, Store(message), Process(|taken|));
      if UpToDate(s) && |batch| >= batchSize {
        SwapAndCallKeepUpToDate(batchSize, s, Store(message));
      }
      hide Flatten, Delivered;
      var full, ticket := StoreLocked(message);
      threw := false;
      if full {
        var inserted, logged;
        inserted, logged, threw := ProcessBatch(ticket, outcome);
      }
    }

    /** A flush, when nothing comes between its two parts. */
    method FlushBatch(outcome: Insert) returns (threw: bool)
      requires Valid()
      modifies this
      ensures Valid() && batch == [] && taken == old(taken) + [old(batch)]
      ensures accepted == old(accepted) && Flatten(taken) == accepted
      ensures threw <==> old(batch) != [] && outcome == OtherException
      ensures Snapshot() == ApplyAll(batchSize, old(Snapshot()), Steps(batchSize, old(Snapshot()), OnFlush))
      ensures old(AllProcessed(Snapshot())) ==> AllProcessed(Snapshot())
      ensures old(UpToDate(Snapshot())) ==> UpToDate(Snapshot()) && Delivered(taken, calls) == accepted
    {
      ghost var s := Snapshot();
      ApplyAllShort(batchSize, s, Take, Process(|taken|));
      if UpToDate(s) {
        SwapAndCallKeepUpToDate(batchSize, s, Take);
      }
      hide Inv, Flatten, Delivered;
      var ticket := SwapLocked();
      var inserted, logged;
      inserted, logged, threw := ProcessBatch(ticket, outcome);
      NothingLeft(batchSize, Snapshot());
    }
  }

  class Storage {
    const msgBatch: Batch
    const logBatch: Batch

    ghost predicate Valid()
      reads this, msgBatch, logBatch
    {
      msgBatch != logBatch && msgBatch.Valid() && logBatch.Valid()
    }

    constructor (batchSize: nat)
      ensures Valid() && fresh(msgBatch) && fresh(logBatch)
      ensures msgBatch.Snapshot() == EMPTY && logBatch.Snapshot() == EMPTY
    {
      msgBatch := new Batch(batchSize);
      logBatch := new Batch(batchSize);
    }

    /** A full flush: nothing stays in a batch.  If all that was swapped out before had been processed in
        the order of the swaps, then after it the process calls have handled, in arrival order, everything
        that was ever put in a batch.  An exception that leaves the first process() leaves the log batch as
        it was. */
    method Flush(msgOutcome: Insert, logOutcome: Insert) returns (threw: bool)
      requires Valid()
      modifies msgBatch, logBatch
      ensures Valid()
      ensures var msgThrew := old(msgBatch.batch) != [] && msgOutcome == OtherException;
              && (msgThrew ==> threw && unchanged(logBatch))
              && (!msgThrew ==>
                    && (threw <==> old(logBatch.batch) != [] && logOutcome == OtherException)
                    && logBatch.batch == [] && logBatch.taken == old(logBatch.taken) + [old(logBatch.batch)]
                    && Flatten(logBatch.taken) == logBatch.accepted
                    && (old(AllProcessed(logBatch.Snapshot())) ==> AllProcessed(logBatch.Snapshot()))
                    && (old(UpToDate(logBatch.Snapshot())) ==>
                          && UpToDate(logBatch.Snapshot())
                          && Delivered(logBatch.taken, logBatch.calls) == logBatch.accepted))
      ensures msgBatch.batch == [] && msgBatch.taken == old(msgBatch.taken) + [old(msgBatch.batch)]
      ensures Flatten(msgBatch.taken) == msgBatch.accepted
      ensures old(AllProcessed(msgBatch.Snapshot())) ==> AllProcessed(msgBatch.Snapshot())
      ensures old(UpToDate(msgBatch.Snapshot())) ==>
                UpToDate(msgBatch.Snapshot()) && Delivered(msgBatch.taken, msgBatch.calls) == msgBatch.accepted
      ensures msgBatch.accepted == old(msgBatch.accepted) && logBatch.accepted == old(logBatch.accepted)
    {
      hide Inv, Flatten, Delivered;
      threw := msgBatch.FlushBatch(msgOutcome);
      if threw {
        return;
      }
      threw := logBatch.FlushBatch(logOutcome);
    }
  }
}
