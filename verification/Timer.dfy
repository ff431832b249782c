// The timer queue of common/Timer.cpp: one pass of its loop over the ordered multimap, and what follows
// for the times at which callbacks fire.
module TimerSteps {
  type Id = nat

  /** A queue node: the timestamp it is filed under, the callback, and the repeat interval or 0. */
  datatype Entry = Entry(key: int, id: Id, repeat: int)

  /** A call of a callback, in the pass that read the clock as `at`. */
  datatype Firing = Firing(entry: Entry, at: int)

  type Queue = seq<Entry>

  /** `requested` is the timestamp each callback was first filed under. */
  datatype State = State(queue: Queue, log: seq<Firing>, requested: seq<int>)

  const EMPTY: State := State([], [], [])

  /** What storing a long long in an int keeps. */
  function ToInt32(x: int): (r: int)
    ensures -0x8000_0000 <= r < 0x8000_0000 && (x - r) % 0x1_0000_0000 == 0
  {
    (x + 0x8000_0000) % 0x1_0000_0000 - 0x8000_0000
  }

  lemma ToInt32KeepsExactly(x: int)
    ensures ToInt32(x) == x <==> -0x8000_0000 <= x < 0x8000_0000
  {
  }

  // ---- The multimap

  ghost predicate Sorted(q: Queue) {
    forall i, j :: 0 <= i < j < |q| ==> q[i].key <= q[j].key
  }

  /** Where a multimap puts a node with this key: behind those with keys up to it. */
  function UpperBound(q: Queue, key: int): (n: nat)
    ensures n <= |q|
    ensures forall i :: 0 <= i < n ==> q[i].key <= key
    ensures n < |q| ==> key < q[n].key
  {
    if q == [] || key < q[0].key then 0 else 1 + UpperBound(q[1..], key)
  }

  function Insert(q: Queue, e: Entry): Queue {
    var p := UpperBound(q, e.key);
    q[..p] + [e] + q[p..]
  }

  lemma InsertSorted(q: Queue, e: Entry)
    requires Sorted(q)
    ensures Sorted(Insert(q, e))
  {
    hide UpperBound;
  }

  function IfKey(e: Entry, key: int): Queue {
    if e.key == key then [e] else []
  }

  /** The nodes filed under one key, in their order. */
  function OfKey(q: Queue, key: int): Queue {
    if q == [] then [] else IfKey(q[0], key) + OfKey(q[1..], key)
  }

  lemma {:induction false} OfKeyConcat(a: Queue, b: Queue, key: int)
    ensures OfKey(a + b, key) == OfKey(a, key) + OfKey(b, key)
  {
    hide IfKey;
    if a == [] {
      assert a + b == b;
      assert OfKey(a, key) + OfKey(b, key) == OfKey(b, key);
    } else {
      assert (a + b)[1..] == a[1..] + b && (a + b)[0] == a[0];
      OfKeyConcat(a[1..], b, key);
      Associates(IfKey(a[0], key), OfKey(a[1..], key), OfKey(b, key));
    }
  }

  lemma Associates(a: Queue, b: Queue, c: Queue)
    ensures a + (b + c) == (a + b) + c
  {
  }

  lemma {:induction false} OfKeyNone(q: Queue, key: int)
    requires forall e :: e in q ==> e.key != key
    ensures OfKey(q, key) == []
  {
    if q != [] {
      OfKeyNone(q[1..], key);
    }
  }

  /** A new node stands behind those with its key; nothing else changes places. */
  lemma InsertIsStable(q: Queue, e: Entry, key: int)
    requires Sorted(q)
    ensures OfKey(Insert(q, e), key) == OfKey(q, key) + IfKey(e, key)
  {
    hide UpperBound, OfKey;
    var p := UpperBound(q, e.key);
    var a, b := q[..p], q[p..];
    assert q == a + b;
    OfKeyConcat(a + [e], b, key);
    OfKeyConcat(a, [e], key);
    OfKeyConcat(a, b, key);
    OfKeyOne(e, key);
    if key == e.key {
      OfKeyNone(b, key);
      assert OfKey(a, key) + [] == OfKey(a, key);
      assert OfKey(a, key) + [e] + [] == OfKey(a, key) + [e];
    } else {
      assert OfKey(a, key) + [] + OfKey(b, key) == OfKey(a, key) + OfKey(b, key);
      assert OfKey(q, key) + [] == OfKey(q, key);
    }
  }

  lemma OfKeyOne(e: Entry, key: int)
    ensures OfKey([e], key) == IfKey(e, key)
  {
    assert [e][1..] == [];
    assert OfKey([e], key) == IfKey(e, key) + OfKey([], key);
  }

  lemma UpperBoundUnique(q: Queue, key: int, n: nat)
    requires n <= |q|
    requires forall i :: 0 <= i < n ==> q[i].key <= key
    requires n < |q| ==> key < q[n].key
    ensures UpperBound(q, key) == n
  {
  }

  /** A node filed under a later time does not change how many are due. */
  lemma InsertLaterKeepsDue(q: Queue, e: Entry, now: int)
    requires now < e.key
    ensures UpperBound(Insert(q, e), now) == UpperBound(q, now)
  {
    var p, d := UpperBound(q, e.key), UpperBound(q, now);
    var r := Insert(q, e);
    assert d <= p;
    assert forall i :: 0 <= i < d ==> r[i] == q[i];
    if d < p {
      assert r[d] == q[d];
    } else {
      assert r[d] == e;
    }
    UpperBoundUnique(r, now, d);
  }

  // ---- One pass

  predicate HeadDue(q: Queue, now: int) {
    q != [] && q[0].key <= now
  }

  lemma NothingDueBehind(q: Queue, now: int, it: nat)
    requires Sorted(q) && !HeadDue(q, now) && it < |q|
    ensures now < q[it].key
  {
  }

  function Moved(e: Entry, now: int): Entry {
    Entry(now + e.repeat, e.id, e.repeat)
  }

  /** The node filed again, if it is an interval. */
  function RefiledOne(e: Entry, now: int): Queue {
    if e.repeat > 0 then [Moved(e, now)] else []
  }

  function FileAgain(q: Queue, e: Entry, now: int): Queue {
    if e.repeat > 0 then Insert(q, Moved(e, now)) else q
  }

  /** The queue once the first node has fired: an interval is filed again, a one-shot is gone. */
  function AfterHead(q: Queue, now: int): Queue
    requires q != []
  {
    FileAgain(q[1..], q[0], now)
  }

  /** One turn of the loop in run() as the code does it, on the queue alone. */
  lemma AfterHeadAt(q: Queue, it: nat, now: int)
    requires it == 0 && q != []
    ensures var rest, node := q[..it] + q[it + 1..], Moved(q[it], now);
            var p := UpperBound(rest, node.key);
            && (q[it].repeat <= 0 ==> rest == AfterHead(q, now))
            && (q[it].repeat > 0 ==> rest[..p] + [node] + rest[p..] == AfterHead(q, now))
            && (q[it].repeat > 0 ==> AfterHead(q, now) != [])
            && (q[it].repeat > 0 && p == 0 ==> !HeadDue(AfterHead(q, now), now))
  {
    hide UpperBound;
    assert q[..it] + q[it + 1..] == q[1..];
  }

  function FireHead(st: State, now: int): State
    requires st.queue != []
  {
    st.(queue := AfterHead(st.queue, now), log := st.log + [Firing(st.queue[0], now)])
  }

  lemma FireHeadDue(q: Queue, now: int)
    requires HeadDue(q, now)
    ensures UpperBound(AfterHead(q, now), now) == UpperBound(q, now) - 1
  {
    if q[0].repeat > 0 {
      InsertLaterKeepsDue(q[1..], Moved(q[0], now), now);
    }
  }

  function Pass(st: State, now: int): State
    decreases UpperBound(st.queue, now)
  {
    if !HeadDue(st.queue, now) then st
    else
      FireHeadDue(st.queue, now);
      Pass(FireHead(st, now), now)
  }

  lemma FireHeadSorted(q: Queue, now: int)
    requires Sorted(q) && q != []
    ensures Sorted(AfterHead(q, now))
  {
    if q[0].repeat > 0 {
      InsertSorted(q[1..], Moved(q[0], now));
    }
  }

  function Firings(due: Queue, now: int): seq<Firing> {
    if due == [] then [] else [Firing(due[0], now)] + Firings(due[1..], now)
  }

  /** The intervals among the due nodes under their next time, in the order in which they fire. */
  function Refiled(due: Queue, now: int): Queue {
    if due == [] then [] else RefiledOne(due[0], now) + Refiled(due[1..], now)
  }

  /** Filing a node behind the first n leaves those alone. */
  lemma InsertBehind(q: Queue, e: Entry, n: nat)
    requires n <= UpperBound(q, e.key)
    ensures |Insert(q, e)| == |q| + 1
    ensures Insert(q, e)[..n] == q[..n]
    ensures Insert(q, e)[n..] == Insert(q[n..], e)
  {
    hide UpperBound;
    var p := UpperBound(q, e.key);
    UpperBoundUnique(q[n..], e.key, p - n);
    assert q[n..] == q[n..p] + q[p..];
  }

  /** What filing again adds, and that it goes behind nodes with the same key. */
  lemma FileAgainAdds(q: Queue, e: Entry, now: int, key: int)
    requires Sorted(q)
    ensures multiset(FileAgain(q, e, now)) == multiset(q) + multiset(RefiledOne(e, now))
    ensures OfKey(FileAgain(q, e, now), key) == OfKey(q, key) + OfKey(RefiledOne(e, now), key)
  {
    hide UpperBound;
    if e.repeat > 0 {
      var m := Moved(e, now);
      var p := UpperBound(q, m.key);
      assert q == q[..p] + q[p..];
      InsertIsStable(q, m, key);
      OfKeyOne(m, key);
    } else {
      assert OfKey(q, key) + OfKey([], key) == OfKey(q, key);
    }
  }

  /** The nodes that are due stay in front, in order, while the first of them is handled. */
  lemma DueBehindHead(q: Queue, now: int)
    requires HeadDue(q, now)
    ensures var d, r := UpperBound(q, now), AfterHead(q, now);
            && d - 1 <= |r|
            && r[..d - 1] == q[1..d]
            && r[d - 1..] == FileAgain(q[d..], q[0], now)
  {
    hide UpperBound, Insert;
    var d, t := UpperBound(q, now), q[1..];
    UpperBoundTail(q, now);
    assert t[..d - 1] == q[1..d] && t[d - 1..] == q[d..];
    if q[0].repeat > 0 {
      LaterKeyIsBehind(t, now, Moved(q[0], now).key);
      InsertBehind(t, Moved(q[0], now), d - 1);
    } else {
      assert AfterHead(q, now) == t;
    }
  }

  lemma UpperBoundTail(q: Queue, now: int)
    requires HeadDue(q, now)
    ensures UpperBound(q, now) == 1 + UpperBound(q[1..], now)
  {
  }

  lemma LaterKeyIsBehind(q: Queue, now: int, key: int)
    requires now < key
    ensures UpperBound(q, now) <= UpperBound(q, key)
  {
  }

  lemma {:induction false} PassFires(st: State, now: int)
    ensures Pass(st, now).log == st.log + Firings(st.queue[..UpperBound(st.queue, now)], now)
    ensures Pass(st, now).requested == st.requested
    decreases UpperBound(st.queue, now)
  {
    var q, d := st.queue, UpperBound(st.queue, now);
    PassUnfolds(st, now);
    if HeadDue(q, now) {
      var u := FireHead(st, now);
      FireHeadDue(q, now);
      DueBehindHead(q, now);
      PassFires(u, now);
      assert q[..d][0] == q[0] && q[..d][1..] == q[1..d];
      hide Pass, AfterHead, UpperBound;
      assert Pass(st, now).log == st.log + ([Firing(q[0], now)] + Firings(q[1..d], now));
    }
  }

  lemma RefiledHead(due: Queue, now: int)
    requires due != []
    ensures Refiled(due, now) == RefiledOne(due[0], now) + Refiled(due[1..], now)
  {
  }

  lemma {:induction false} PassRefiles(st: State, now: int, key: int)
    requires Sorted(st.queue)
    ensures var d, t := UpperBound(st.queue, now), Pass(st, now);
            && multiset(t.queue) == multiset(st.queue[d..]) + multiset(Refiled(st.queue[..d], now))
            && OfKey(t.queue, key) == OfKey(st.queue[d..], key) + OfKey(Refiled(st.queue[..d], now), key)
    decreases UpperBound(st.queue, now)
  {
    hide Pass, AfterHead, UpperBound, RefiledOne, FileAgain, OfKey;
    var q, d := st.queue, UpperBound(st.queue, now);
    PassUnfolds(st, now);
    DueExactly(q, now);
    if HeadDue(q, now) {
      FireHeadDue(q, now);
      FireHeadSorted(q, now);
      DueBehindHead(q, now);
      FileAgainAdds(q[d..], q[0], now, key);
      PassRefiles(FireHead(st, now), now, key);
      assert q[..d][0] == q[0] && q[..d][1..] == q[1..d];
      RefiledHead(q[..d], now);
      var one, more := RefiledOne(q[0], now), Refiled(q[1..d], now);
      hide Refiled, HeadDue;
      OfKeyConcat(one, more, key);
      Associates(OfKey(q[d..], key), OfKey(one, key), OfKey(more, key));
    } else {
      assert q[d..] == q && q[..d] == [];
      OfKeyNone([], key);
      assert OfKey(q, key) + [] == OfKey(q, key);
    }
  }

  lemma DueExactly(q: Queue, now: int)
    ensures UpperBound(q, now) > 0 <==> HeadDue(q, now)
  {
  }

  lemma {:induction false} PassLeavesNothingDue(st: State, now: int)
    requires Sorted(st.queue)
    ensures Sorted(Pass(st, now).queue)
    ensures forall e :: e in Pass(st, now).queue ==> now < e.key
    decreases UpperBound(st.queue, now)
  {
    PassUnfolds(st, now);
    if HeadDue(st.queue, now) {
      FireHeadDue(st.queue, now);
      FireHeadSorted(st.queue, now);
      hide Pass, AfterHead;
      PassLeavesNothingDue(FireHead(st, now), now);
    }
  }

  lemma {:induction false} FiringsAre(due: Queue, now: int)
    ensures |Firings(due, now)| == |due|
    ensures forall i :: 0 <= i < |due| ==> Firings(due, now)[i] == Firing(due[i], now)
  {
    if due != [] {
      FiringsAre(due[1..], now);
    }
  }

  /** e is one of the due intervals, filed at exactly `now` plus its repeat. */
  ghost predicate FiledAgain(due: Queue, now: int, e: Entry) {
    exists i :: 0 <= i < |due| && due[i].repeat > 0 && e == Entry(now + due[i].repeat, due[i].id, due[i].repeat)
  }

  lemma {:induction false} RefiledMembers(due: Queue, now: int, e: Entry)
    ensures e in Refiled(due, now) <==> FiledAgain(due, now, e)
  {
    if due != [] {
      RefiledMembers(due[1..], now, e);
      if FiledAgain(due[1..], now, e) {
        var i :| 0 <= i < |due| - 1 && due[1..][i].repeat > 0
                 && e == Entry(now + due[1..][i].repeat, due[1..][i].id, due[1..][i].repeat);
        assert due[i + 1] == due[1..][i];
      }
      if FiledAgain(due, now, e) {
        var i :| 0 <= i < |due| && due[i].repeat > 0 && e == Entry(now + due[i].repeat, due[i].id, due[i].repeat);
        assert i > 0 ==> due[1..][i - 1] == due[i];
      }
    }
  }

  lemma PassMembers(st: State, now: int)
    requires Sorted(st.queue)
    ensures var d, t := UpperBound(st.queue, now), Pass(st, now);
            forall e :: e in t.queue <==> e in st.queue[d..] || FiledAgain(st.queue[..d], now, e)
  {
    hide Pass, UpperBound, Refiled, OfKey, FiledAgain, Sorted;
    var d, q := UpperBound(st.queue, now), Pass(st, now).queue;
    PassRefiles(st, now, now);
    forall e ensures e in q <==> e in st.queue[d..] || FiledAgain(st.queue[..d], now, e) {
      RefiledMembers(st.queue[..d], now, e);
      assert e in q <==> e in multiset(q);
    }
  }

  /** The pass is exact: it fires the due nodes once each and in order, leaves the later ones, files the
      intervals again at exactly `now` plus their repeat, and then nothing is due.  Under each key the nodes
      that were there keep their order, and behind them stand those filed again, in the order in which they
      fired. */
  lemma PassIsExact(st: State, now: int)
    requires Sorted(st.queue)
    ensures var d, t := UpperBound(st.queue, now), Pass(st, now);
            && t.log == st.log + Firings(st.queue[..d], now)
            && |t.log| == |st.log| + d
            && (forall i :: 0 <= i < d ==> t.log[|st.log| + i] == Firing(st.queue[i], now))
            && (forall e :: e in t.queue <==> e in st.queue[d..] || FiledAgain(st.queue[..d], now, e))
            && multiset(t.queue) == multiset(st.queue[d..]) + multiset(Refiled(st.queue[..d], now))
            && (forall key :: OfKey(t.queue, key) ==
                              OfKey(st.queue[d..], key) + OfKey(Refiled(st.queue[..d], now), key))
            && t.requested == st.requested
            && Sorted(t.queue)
            && forall e :: e in t.queue ==> now < e.key
  {
    hide Pass, UpperBound, Firings, Refiled, OfKey, FiledAgain;
    PassFires(st, now);
    FiringsAre(st.queue[..UpperBound(st.queue, now)], now);
    forall key
      ensures var d, t := UpperBound(st.queue, now), Pass(st, now);
              && multiset(t.queue) == multiset(st.queue[d..]) + multiset(Refiled(st.queue[..d], now))
              && OfKey(t.queue, key) == OfKey(st.queue[d..], key) + OfKey(Refiled(st.queue[..d], now), key)
    {
      PassRefiles(st, now, key);
    }
    PassRefiles(st, now, now);
    PassMembers(st, now);
    PassLeavesNothingDue(st, now);
  }

  lemma PassUnfolds(st: State, now: int)
    ensures Pass(st, now) == if HeadDue(st.queue, now) then Pass(FireHead(st, now), now) else st
  {
  }

  // ---- Runs

  datatype Event =
    | SetTimer(timestamp: int)
    | SetInterval(now: int, interval: int)
    | RunPass(now: int)

  /** A new callback gets the next number. */
  function File(st: State, key: int, repeat: int): State {
    st.(queue := Insert(st.queue, Entry(key, |st.requested|, repeat)), requested := st.requested + [key])
  }

  function Apply(st: State, e: Event): State {
    match e
    case SetTimer(timestamp) => File(st, timestamp, 0)
    case SetInterval(now, interval) => File(st, now + interval, ToInt32(interval))
    case RunPass(now) => Pass(st, now)
  }

  function Run(events: seq<Event>): State {
    if events == [] then EMPTY else Apply(Run(events[..|events| - 1]), events[|events| - 1])
  }

  ghost predicate UniqueIds(q: Queue) {
    forall i, j :: 0 <= i < j < |q| ==> q[i].id != q[j].id
  }

  /** No queued node is filed under an earlier time than was asked for, and an interval that has fired is
      filed at least its repeat later. */
  ghost predicate QueuedInTime(st: State, e: Entry) {
    && e.id < |st.requested|
    && st.requested[e.id] <= e.key
    && forall f :: f in st.log && f.entry.id == e.id ==>
         f.entry.repeat == e.repeat && e.repeat > 0 && f.at + e.repeat <= e.key
  }

  /** No call comes early. */
  ghost predicate FiredInTime(st: State, f: Firing) {
    f.entry.id < |st.requested| && st.requested[f.entry.id] <= f.entry.key <= f.at
  }

  /** Two calls of one callback: it is an interval, and they are at least its repeat apart. */
  ghost predicate Apart(f: Firing, g: Firing) {
    f.entry.id == g.entry.id ==> f.entry.repeat == g.entry.repeat && f.entry.repeat > 0 && f.at + f.entry.repeat <= g.at
  }

  ghost predicate Inv(st: State) {
    && Sorted(st.queue)
    && UniqueIds(st.queue)
    && (forall e :: e in st.queue ==> QueuedInTime(st, e))
    && (forall f :: f in st.log ==> FiredInTime(st, f))
    && (forall i, j :: 0 <= i < j < |st.log| ==> Apart(st.log[i], st.log[j]))
  }

  lemma InsertMembers(q: Queue, e: Entry)
    ensures forall x :: x in Insert(q, e) <==> x in q || x == e
  {
    var p := UpperBound(q, e.key);
    assert q == q[..p] + q[p..];
  }

  lemma InsertUnique(q: Queue, e: Entry)
    requires UniqueIds(q) && forall x :: x in q ==> x.id != e.id
    ensures UniqueIds(Insert(q, e))
  {
    var p := UpperBound(q, e.key);
    assert forall i :: 0 <= i < |q| ==> q[i] in q;
  }

  lemma QueuedIdsBelow(st: State)
    requires Inv(st)
    ensures forall e :: e in st.queue ==> e.id < |st.requested|
  {
    forall e | e in st.queue ensures e.id < |st.requested| {
      assert QueuedInTime(st, e);
    }
  }

  /** A filed interval has the repeat that was asked for exactly when that fits an int. */
  lemma FiledAsAskedExactly(st: State, key: int, interval: int)
    requires Inv(st)
    ensures Entry(key, |st.requested|, interval) in File(st, key, ToInt32(interval)).queue <==>
            -0x8000_0000 <= interval < 0x8000_0000
  {
    QueuedIdsBelow(st);
    InsertMembers(st.queue, Entry(key, |st.requested|, ToInt32(interval)));
    ToInt32KeepsExactly(interval);
    hide Inv, ToInt32, Insert;
  }

  lemma FileKeepsInv(st: State, key: int, repeat: int)
    requires Inv(st)
    ensures Inv(File(st, key, repeat))
  {
    var e, t := Entry(key, |st.requested|, repeat), File(st, key, repeat);
    InsertSorted(st.queue, e);
    InsertMembers(st.queue, e);
    forall x | x in st.queue ensures x.id != e.id && QueuedInTime(t, x) {
      assert QueuedInTime(st, x);
    }
    InsertUnique(st.queue, e);
    forall f | f in st.log ensures FiredInTime(t, f) && f.entry.id != e.id {
      assert FiredInTime(st, f);
    }
  }

  lemma FireHeadKeepsQueue(st: State, now: int)
    requires Inv(st) && HeadDue(st.queue, now)
    ensures var t := FireHead(st, now);
            Sorted(t.queue) && UniqueIds(t.queue) && forall e :: e in t.queue ==> QueuedInTime(t, e)
  {
    var t, head, rest := FireHead(st, now), st.queue[0], st.queue[1..];
    FireHeadSorted(st.queue, now);
    assert QueuedInTime(st, head);
    forall x | x in rest ensures x.id != head.id && QueuedInTime(t, x) {
      assert QueuedInTime(st, x);
    }
    if head.repeat > 0 {
      InsertMembers(rest, Moved(head, now));
      InsertUnique(rest, Moved(head, now));
      forall f | f in st.log ensures FiredInTime(st, f) {
      }
      assert QueuedInTime(t, Moved(head, now)) by {
        forall f | f in t.log && f.entry.id == head.id
          ensures f.entry.repeat == head.repeat && f.at + head.repeat <= now + head.repeat
        {
        }
      }
    }
  }

  lemma FireHeadKeepsInv(st: State, now: int)
    requires Inv(st) && HeadDue(st.queue, now)
    ensures Inv(FireHead(st, now))
  {
    var t, head := FireHead(st, now), st.queue[0];
    FireHeadKeepsQueue(st, now);
    assert QueuedInTime(st, head);
    forall f | f in t.log ensures FiredInTime(t, f) {
      assert f in st.log || f == Firing(head, now);
      if f in st.log {
        assert FiredInTime(st, f);
      }
    }
    forall i, j | 0 <= i < j < |t.log| ensures Apart(t.log[i], t.log[j]) {
      if j < |st.log| {
        assert Apart(st.log[i], st.log[j]);
      } else {
        assert t.log[i] == st.log[i] && st.log[i] in st.log;
      }
    }
  }

  lemma {:induction false} PassKeepsInv(st: State, now: int)
    requires Inv(st)
    ensures Inv(Pass(st, now))
    decreases UpperBound(st.queue, now)
  {
    if HeadDue(st.queue, now) {
      FireHeadDue(st.queue, now);
      FireHeadKeepsInv(st, now);
      PassKeepsInv(FireHead(st, now), now);
    }
  }

  lemma StepKeepsInv(st: State, e: Event)
    requires Inv(st)
    ensures Inv(Apply(st, e))
  {
    hide Inv, Pass, Insert, ToInt32, File;
    match e {
      case SetTimer(timestamp) => FileKeepsInv(st, timestamp, 0);
      case SetInterval(now, interval) => FileKeepsInv(st, now + interval, ToInt32(interval));
      case RunPass(now) => PassKeepsInv(st, now);
    }
  }

  lemma {:induction false} RunKeepsInv(events: seq<Event>)
    ensures Inv(Run(events))
  {
    if events != [] {
      RunKeepsInv(events[..|events| - 1]);
      StepKeepsInv(Run(events[..|events| - 1]), events[|events| - 1]);
      hide Inv, Apply;
    }
  }

  /** The times asked for, in the order of the requests. */
  function RequestedTimes(events: seq<Event>): seq<int> {
    if events == [] then []
    else
      RequestedTimes(events[..|events| - 1]) +
      match events[|events| - 1] {
        case SetTimer(timestamp) => [timestamp]
        case SetInterval(now, interval) => [now + interval]
        case RunPass(_) => []
      }
  }

  lemma {:induction false} RequestsAreRecorded(events: seq<Event>)
    ensures Run(events).requested == RequestedTimes(events)
  {
    if events != [] {
      hide Insert, Pass;
      var init, last := events[..|events| - 1], events[|events| - 1];
      RequestsAreRecorded(init);
      if last.RunPass? {
        PassFires(Run(init), last.now);
      }
    }
  }

  /** Over every run, whatever the clock does between passes: no callback is called before the time that was
      asked for, a one-shot is called at most once, and two calls of an interval are at least its repeat
      apart. */
  lemma RunIsInTime(events: seq<Event>)
    ensures Inv(Run(events))
    ensures forall f :: f in Run(events).log ==>
              f.entry.id < |RequestedTimes(events)| && RequestedTimes(events)[f.entry.id] <= f.at
    ensures forall i, j :: 0 <= i < j < |Run(events).log| ==> Apart(Run(events).log[i], Run(events).log[j])
  {
    RunKeepsInv(events);
    RequestsAreRecorded(events);
    forall f | f in Run(events).log
      ensures f.entry.id < |RequestedTimes(events)| && RequestedTimes(events)[f.entry.id] <= f.at
    {
      assert FiredInTime(Run(events), f);
    }
  }

  // ---- Where intervals stand

  /** `i` is the last call of the callback. */
  ghost predicate LastCall(log: seq<Firing>, id: Id, i: nat) {
    && i < |log| && log[i].entry.id == id
    && forall j :: i < j < |log| ==> log[j].entry.id != id
  }

  /** A node stands exactly its repeat after the last call of its callback, or at the time asked for if there
      was none. */
  ghost predicate OnTime(st: State, e: Entry) {
    || (exists i: nat :: LastCall(st.log, e.id, i) && e.key == st.log[i].at + e.repeat)
    || (e.id < |st.requested| && e.key == st.requested[e.id] && forall f :: f in st.log ==> f.entry.id != e.id)
  }

  lemma FileKeepsOnTime(st: State, key: int, repeat: int)
    requires Inv(st) && forall e :: e in st.queue ==> OnTime(st, e)
    ensures forall e :: e in File(st, key, repeat).queue ==> OnTime(File(st, key, repeat), e)
  {
    var n, t := Entry(key, |st.requested|, repeat), File(st, key, repeat);
    InsertMembers(st.queue, n);
    forall f | f in st.log ensures f.entry.id != n.id {
      assert FiredInTime(st, f);
    }
    hide Inv, Insert;
    forall e | e in t.queue ensures OnTime(t, e) {
      if e != n {
        assert OnTime(st, e);
      }
    }
  }

  lemma LogKeepsOnTime(st: State, t: State, e: Entry, f: Firing)
    requires OnTime(st, e) && t.log == st.log + [f] && t.requested == st.requested && f.entry.id != e.id
    ensures OnTime(t, e)
  {
    if i: nat :| LastCall(st.log, e.id, i) && e.key == st.log[i].at + e.repeat {
      assert LastCall(t.log, e.id, i);
    }
  }

  lemma FireHeadKeepsOnTime(st: State, now: int)
    requires Inv(st) && HeadDue(st.queue, now) && forall e :: e in st.queue ==> OnTime(st, e)
    ensures forall e :: e in FireHead(st, now).queue ==> OnTime(FireHead(st, now), e)
  {
    var t, head, rest := FireHead(st, now), st.queue[0], st.queue[1..];
    AfterHeadMembers(st.queue, now);
    assert forall x :: x in rest ==> x in st.queue && x.id != head.id;
    hide Inv, AfterHead, OnTime;
    forall e | e in t.queue ensures OnTime(t, e) {
      if e in rest {
        LogKeepsOnTime(st, t, e, Firing(head, now));
      } else {
        MovedOnTime(t, head, now);
      }
    }
  }

  lemma MovedOnTime(t: State, head: Entry, now: int)
    requires t.log != [] && t.log[|t.log| - 1] == Firing(head, now)
    ensures OnTime(t, Entry(now + head.repeat, head.id, head.repeat))
  {
    assert LastCall(t.log, head.id, |t.log| - 1);
  }

  lemma {:induction false} PassKeepsOnTime(st: State, now: int)
    requires Inv(st) && forall e :: e in st.queue ==> OnTime(st, e)
    ensures forall e :: e in Pass(st, now).queue ==> OnTime(Pass(st, now), e)
    decreases UpperBound(st.queue, now)
  {
    PassUnfolds(st, now);
    if HeadDue(st.queue, now) {
      FireHeadDue(st.queue, now);
      FireHeadKeepsInv(st, now);
      FireHeadKeepsOnTime(st, now);
      hide Pass, AfterHead, OnTime, Inv;
      PassKeepsOnTime(FireHead(st, now), now);
    }
  }

  lemma StepKeepsOnTime(st: State, e: Event)
    requires Inv(st) && forall x :: x in st.queue ==> OnTime(st, x)
    ensures forall x :: x in Apply(st, e).queue ==> OnTime(Apply(st, e), x)
  {
    hide Inv, OnTime, Pass, File, ToInt32;
    match e {
      case SetTimer(timestamp) => FileKeepsOnTime(st, timestamp, 0);
      case SetInterval(now, interval) => FileKeepsOnTime(st, now + interval, ToInt32(interval));
      case RunPass(now) => PassKeepsOnTime(st, now);
    }
  }

  /** Over every run each queued callback stands at the time asked for until its first call, and then exactly
      its repeat after its last one. */
  lemma {:induction false} RunKeepsOnTime(events: seq<Event>)
    ensures forall e :: e in Run(events).queue ==> OnTime(Run(events), e)
    ensures Run(events).requested == RequestedTimes(events)
  {
    RequestsAreRecorded(events);
    if events != [] {
      hide Inv, OnTime, Apply, RequestedTimes;
      var init := events[..|events| - 1];
      RunKeepsInv(init);
      RunKeepsOnTime(init);
      StepKeepsOnTime(Run(init), events[|events| - 1]);
    }
  }

  // ---- Nothing is lost

  ghost predicate Queued(st: State, id: Id) {
    exists e :: e in st.queue && e.id == id
  }

  ghost predicate Fired(st: State, id: Id) {
    exists f :: f in st.log && f.entry.id == id
  }

  /** The repeat each callback was filed with, in the order of the requests. */
  function Repeats(events: seq<Event>): seq<int> {
    if events == [] then []
    else
      Repeats(events[..|events| - 1]) + RepeatOf(events[|events| - 1])
  }

  function RepeatOf(e: Event): seq<int> {
    match e
    case SetTimer(_) => [0]
    case SetInterval(_, interval) => [ToInt32(interval)]
    case RunPass(_) => []
  }

  /** Nodes and calls carry the repeat that was asked for. */
  ghost predicate CarryRepeats(st: State, repeats: seq<int>) {
    && (forall e :: e in st.queue ==> e.id < |repeats| && e.repeat == repeats[e.id])
    && (forall f :: f in st.log ==> f.entry.id < |repeats| && f.entry.repeat == repeats[f.entry.id])
  }

  /** A callback waits in the queue exactly if it is an interval or has not been called. */
  ghost predicate Accounted(st: State, repeats: seq<int>) {
    && |repeats| == |st.requested|
    && CarryRepeats(st, repeats)
    && (forall id: Id :: id < |repeats| ==> (Queued(st, id) <==> repeats[id] > 0 || !Fired(st, id)))
  }

  lemma FileAccounts(st: State, key: int, repeat: int, repeats: seq<int>)
    requires Accounted(st, repeats)
    ensures Accounted(File(st, key, repeat), repeats + [repeat])
  {
    var e, t := Entry(key, |st.requested|, repeat), File(st, key, repeat);
    InsertMembers(st.queue, e);
    hide Insert;
    assert e in t.queue;
    forall id: Id | id < |repeats|
      ensures Queued(t, id) <==> Queued(st, id)
    {
      if Queued(st, id) {
        var x :| x in st.queue && x.id == id;
        assert x in t.queue;
      }
    }
    assert Queued(t, e.id) && !Fired(t, e.id);
    assert forall id: Id :: Fired(t, id) <==> Fired(st, id);
  }

  lemma AfterHeadMembers(q: Queue, now: int)
    requires q != []
    ensures forall x :: x in AfterHead(q, now) <==> x in q[1..] || (q[0].repeat > 0 && x == Moved(q[0], now))
  {
    InsertMembers(q[1..], Moved(q[0], now));
  }

  lemma FireHeadFires(st: State, now: int, id: Id)
    requires st.queue != []
    ensures Fired(FireHead(st, now), id) <==> id == st.queue[0].id || Fired(st, id)
  {
    var t, f := FireHead(st, now), Firing(st.queue[0], now);
    hide AfterHead;
    assert f in t.log;
    if Fired(st, id) {
      var g :| g in st.log && g.entry.id == id;
      assert g in t.log;
    }
  }

  lemma FireHeadQueues(st: State, now: int, id: Id)
    requires UniqueIds(st.queue) && st.queue != []
    ensures Queued(FireHead(st, now), id) <==>
            if id == st.queue[0].id then st.queue[0].repeat > 0 else Queued(st, id)
  {
    var t, head := FireHead(st, now), st.queue[0];
    AfterHeadMembers(st.queue, now);
    hide AfterHead;
    if id == head.id {
      if head.repeat > 0 {
        assert Moved(head, now) in t.queue;
      }
    } else if Queued(st, id) {
      var x :| x in st.queue && x.id == id;
      assert x in t.queue;
    }
  }

  lemma FireHeadCarries(st: State, now: int, repeats: seq<int>)
    requires st.queue != [] && CarryRepeats(st, repeats)
    ensures CarryRepeats(FireHead(st, now), repeats)
    ensures st.queue[0].id < |repeats| && st.queue[0].repeat == repeats[st.queue[0].id]
  {
    AfterHeadMembers(st.queue, now);
    hide AfterHead;
    assert st.queue[0] in st.queue;
    assert forall x :: x in st.queue[1..] ==> x in st.queue;
  }

  lemma FireHeadAccounts(st: State, now: int, repeats: seq<int>)
    requires UniqueIds(st.queue) && st.queue != [] && Accounted(st, repeats)
    ensures Accounted(FireHead(st, now), repeats)
  {
    hide UniqueIds, Queued, Fired, CarryRepeats, AfterHead;
    var t := FireHead(st, now);
    FireHeadCarries(st, now, repeats);
    forall id: Id | id < |repeats|
      ensures Queued(t, id) <==> repeats[id] > 0 || !Fired(t, id)
    {
      FireHeadFires(st, now, id);
      FireHeadQueues(st, now, id);
    }
  }

  lemma {:induction false} PassAccounts(st: State, now: int, repeats: seq<int>)
    requires Inv(st) && Accounted(st, repeats)
    ensures Accounted(Pass(st, now), repeats)
    decreases UpperBound(st.queue, now)
  {
    PassUnfolds(st, now);
    if HeadDue(st.queue, now) {
      FireHeadDue(st.queue, now);
      FireHeadKeepsInv(st, now);
      FireHeadAccounts(st, now, repeats);
      hide Pass, AfterHead, Accounted;
      PassAccounts(FireHead(st, now), now, repeats);
    }
  }

  lemma StepAccounts(st: State, e: Event, repeats: seq<int>)
    requires Inv(st) && Accounted(st, repeats)
    ensures Accounted(Apply(st, e), repeats + RepeatOf(e))
  {
    hide Accounted, Inv, Pass, File, ToInt32;
    match e {
      case SetTimer(timestamp) => FileAccounts(st, timestamp, 0, repeats);
      case SetInterval(now, interval) => FileAccounts(st, now + interval, ToInt32(interval), repeats);
      case RunPass(now) =>
        PassAccounts(st, now, repeats);
        assert repeats + [] == repeats;
    }
  }

  lemma {:induction false} RunAccounts(events: seq<Event>)
    ensures Accounted(Run(events), Repeats(events))
  {
    if events != [] {
      hide Accounted, Inv, Apply, RepeatOf;
      var init := events[..|events| - 1];
      RunKeepsInv(init);
      RunAccounts(init);
      StepAccounts(Run(init), events[|events| - 1], Repeats(init));
    }
  }

  /** Over every run no timer is lost: each callback ever asked for is in the queue or has been called; it is
      in the queue exactly if it is an interval or has not been called, and only once. */
  lemma NoTimerIsLost(events: seq<Event>)
    ensures |Repeats(events)| == |Run(events).requested|
    ensures forall id: Id :: id < |Repeats(events)| ==>
              && (Queued(Run(events), id) || Fired(Run(events), id))
              && (Queued(Run(events), id) <==> Repeats(events)[id] > 0 || !Fired(Run(events), id))
    ensures UniqueIds(Run(events).queue)
    ensures forall e :: e in Run(events).queue ==> e.id < |Repeats(events)| && e.repeat == Repeats(events)[e.id]
  {
    RunKeepsInv(events);
    RunAccounts(events);
  }
}

module Timers {
  import opened TimerSteps

  class Timer {
    var queue: Queue
    var log: seq<Firing>
    ghost var requested: seq<int>
    var nextId: Id

    ghost function Snapshot(): State
      reads this
    {
      State(queue, log, requested)
    }

    ghost predicate Valid()
      reads this
    {
      Inv(Snapshot()) && nextId == |requested|
    }

    constructor ()
      ensures Valid() && Snapshot() == EMPTY
    {
      queue, log, requested, nextId := [], [], [], 0;
    }

    method SetTimerAt(timestamp: int)
      requires Valid()
      modifies this
      ensures Valid() && Snapshot() == Apply(old(Snapshot()), SetTimer(timestamp))
      ensures requested == old(requested) + [timestamp] && log == old(log)
      ensures forall e :: e in queue <==> e in old(queue) || e == Entry(timestamp, old(nextId), 0)
    {
      InsertMembers(queue, Entry(timestamp, nextId, 0));
      hide Inv, Insert;
      FileKeepsInv(Snapshot(), timestamp, 0);
      queue := Insert(queue, Entry(timestamp, nextId, 0));
      requested := requested + [timestamp];
      nextId := nextId + 1;
    }

    method SetIntervalFrom(now: int, intervalMs: int)
      requires Valid()
      modifies this
      ensures Valid() && Snapshot() == Apply(old(Snapshot()), SetInterval(now, intervalMs))
      ensures requested == old(requested) + [now + intervalMs] && log == old(log)
      ensures forall e :: e in queue <==>
                e in old(queue) || e == Entry(now + intervalMs, old(nextId), ToInt32(intervalMs))
      ensures Entry(now + intervalMs, old(nextId), intervalMs) in queue <==>
              -0x8000_0000 <= intervalMs < 0x8000_0000
    {
      InsertMembers(queue, Entry(now + intervalMs, nextId, ToInt32(intervalMs)));
      hide Inv, ToInt32, Insert;
      FiledAsAskedExactly(Snapshot(), now + intervalMs, intervalMs);
      FileKeepsInv(Snapshot(), now + intervalMs, ToInt32(intervalMs));
      var timestamp := now + intervalMs;
      queue := Insert(queue, Entry(timestamp, nextId, ToInt32(intervalMs)));
      requested := requested + [timestamp];
      nextId := nextId + 1;
    }

    /** One turn of the loop in run(): call the callback, then take the node out or file it again.  The
        iterator is a position in the queue; std::next is taken before the node is extracted, so when the
        node is filed again in front of it the position moves by one. */
    method FireAt(it: nat, now: int) returns (next: nat)
      requires it == 0 && HeadDue(queue, now)
      modifies this`queue, this`log
      ensures Snapshot() == FireHead(old(Snapshot()), now)
      ensures next <= |queue|
      ensures next == 0 || !HeadDue(queue, now)
    {
      AfterHeadAt(queue, it, now);
      hide UpperBound, AfterHead, HeadDue;
      var node := queue[it];
      log := log + [Firing(node, now)];
      var repeat := node.repeat;
      var rest := queue[..it] + queue[it + 1..];
      if repeat > 0 {
        node := Entry(now + repeat, node.id, node.repeat);
        var position := UpperBound(rest, node.key);
        queue := rest[..position] + [node] + rest[position..];
        next := if position <= it then it + 1 else it;
      } else {
        queue := rest;
        next := it;
      }
    }

    /** The loop in run(). */
    method FireDue(now: int)
      requires Sorted(queue)
      modifies this`queue, this`log
      ensures Snapshot() == Pass(old(Snapshot()), now)
    {
      ghost var goal := Pass(Snapshot(), now);
      hide Pass, UpperBound, AfterHead, Sorted;
      var it: nat := 0;
      while it != |queue|
        invariant it <= |queue|
        invariant Sorted(queue)
        invariant Pass(Snapshot(), now) == goal
        invariant it == 0 || !HeadDue(queue, now)
        decreases UpperBound(queue, now)
      {
        if !HeadDue(queue, now) {
          NothingDueBehind(queue, now, it);
        }
        if queue[it].key > now {
          break;
        }
        FireHeadDue(queue, now);
        FireHeadSorted(queue, now);
        PassUnfolds(Snapshot(), now);
        it := FireAt(it, now);
      }
      PassUnfolds(Snapshot(), now);
    }

    /** One pass of run(). */
    method RunOnce(now: int)
      requires Valid()
      modifies this
      ensures Valid() && Snapshot() == Apply(old(Snapshot()), RunPass(now))
      ensures var d := UpperBound(old(queue), now);
              && |log| == |old(log)| + d && old(log) <= log
              && (forall i :: 0 <= i < d ==> log[|old(log)| + i] == Firing(old(queue)[i], now))
              && (forall e :: e in queue <==> e in old(queue)[d..] || FiledAgain(old(queue)[..d], now, e))
              && multiset(queue) == multiset(old(queue)[d..]) + multiset(Refiled(old(queue)[..d], now))
              && (forall key :: OfKey(queue, key) ==
                                OfKey(old(queue)[d..], key) + OfKey(Refiled(old(queue)[..d], now), key))
      ensures forall e :: e in queue ==> now < e.key
    {
      PassIsExact(Snapshot(), now);
      PassKeepsInv(Snapshot(), now);
      FireDue(now);
    }
  }
}
