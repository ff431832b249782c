// The two modular cursors: over the sessions of a client (irc/IRCClient.cpp) and over the selectors of
// the pool (irc/IRCSelectorPool.cpp).
module Modular {
  lemma MulMonotone(a: int, b: int, d: int)
    requires a <= b && 0 <= d
    ensures a * d <= b * d
  {
    assert (b - a) * d >= 0;
    assert (b - a) * d == b * d - a * d;
  }

  lemma OnlyZeroBetween(m: int, d: int)
    requires 0 <= d && -d < m * d < d
    ensures m == 0
  {
    if m >= 1 {
      MulMonotone(1, m, d);
    } else if m <= -1 {
      MulMonotone(m, -1, d);
    }
  }

  lemma DivModUnique(a: nat, d: nat, q: nat, r: nat)
    requires r < d && a == q * d + r
    ensures a / d == q && a % d == r
  {
    var k, s := a / d, a % d;
    assert a == k * d + s;
    assert (k - q) * d == k * d - q * d;
    OnlyZeroBetween(k - q, d);
  }

  lemma DivModSmall(a: nat, d: nat)
    requires a < d
    ensures a / d == 0 && a % d == a
  {
    DivModUnique(a, d, 0, a);
  }

  /** Counting up by one carries exactly when the remainder is the last. */
  lemma DivModByOne(n: nat, d: nat)
    requires d > 0
    ensures (n + 1) / d == if n % d + 1 == d then n / d + 1 else n / d
    ensures (n + 1) % d == if n % d + 1 == d then 0 else n % d + 1
  {
    var q, r := n / d, n % d;
    assert n == q * d + r;
    if r + 1 == d {
      assert (q + 1) * d == q * d + d;
      DivModUnique(n + 1, d, q + 1, 0);
    } else {
      DivModUnique(n + 1, d, q, r + 1);
    }
  }
}

module RoundRobin {
  import opened Modular

  /** The place i steps after the cursor on a ring of n. */
  function Ahead(cursor: nat, i: nat, n: nat): (place: nat)
    requires n > 0
    ensures place < n
  {
    (cursor + i) % n
  }

  lemma AheadByOne(cursor: nat, i: nat, n: nat)
    requires n > 0
    ensures Ahead(Ahead(cursor, i, n), 1, n) == Ahead(cursor, i + 1, n)
  {
    DivModByOne(cursor + i, n);
    DivModByOne((cursor + i) % n, n);
    DivModSmall((cursor + i) % n, n);
  }

  /** Going once around the ring, every place is met. */
  lemma EveryPlaceIsAhead(cursor: nat, place: nat, n: nat)
    requires cursor < n && place < n
    ensures exists i: nat :: i < n && Ahead(cursor, i, n) == place
  {
    var i := if cursor <= place then place - cursor else n - cursor + place;
    if cursor <= place {
      DivModSmall(place, n);
    } else {
      assert cursor + i == 1 * n + place;
      DivModUnique(cursor + i, n, 1, place);
    }
    assert Ahead(cursor, i, n) == place;
  }

  lemma NextPlace(cursor: nat, n: nat)
    requires cursor < n
    ensures (cursor + 1) % n == if cursor + 1 == n then 0 else cursor + 1
  {
    if cursor + 1 == n {
      DivModUnique(n, n, 1, 0);
    } else {
      DivModSmall(cursor + 1, n);
    }
  }

  lemma FullTurn(cursor: nat, n: nat)
    requires cursor < n
    ensures Ahead(cursor, n, n) == cursor && Ahead(cursor, 0, n) == cursor
  {
    assert cursor + n == 1 * n + cursor;
    DivModUnique(cursor + n, n, 1, cursor);
    DivModSmall(cursor, n);
  }
}

module SessionCursors {
  import opened Options
  import opened RoundRobin

  type Session = nat

  class IRCClientSessions {
    var sessions: seq<Session>
    var curSessionRoundRobin: nat

    /** evtReload clears the sessions without resetting the cursor.  A single session is returned without
        reading the cursor; among several, an old cursor beyond them would be read as an index. */
    ghost predicate CursorServes()
      reads this
    {
      |sessions| == 1 || curSessionRoundRobin < |sessions|
    }

    /** Where the cursor is i calls later: a single session leaves it alone. */
    ghost function CursorAfter(cursor: nat, i: nat): nat
      requires sessions != []
      reads this`sessions
    {
      if |sessions| == 1 then cursor else (cursor + i) % |sessions|
    }

    constructor (sessions: seq<Session>)
      ensures this.sessions == sessions && curSessionRoundRobin == 0
    {
      this.sessions := sessions;
      curSessionRoundRobin := 0;
    }

    method GetNextSessionRoundRobin() returns (session: Session)
      requires CursorServes()
      modifies this`curSessionRoundRobin
      ensures session == sessions[old(curSessionRoundRobin) % |sessions|]
      ensures old(curSessionRoundRobin) < |sessions| ==> session == sessions[old(curSessionRoundRobin)]
      ensures |sessions| > 1 ==>
                curSessionRoundRobin ==
                if old(curSessionRoundRobin) + 1 == |sessions| then 0 else old(curSessionRoundRobin) + 1
      ensures curSessionRoundRobin == CursorAfter(old(curSessionRoundRobin), 1)
    {
      if curSessionRoundRobin < |sessions| {
        FullTurn(curSessionRoundRobin, |sessions|);
        NextPlace(curSessionRoundRobin, |sessions|);
      }
      if |sessions| == 1 {
        return sessions[0];
      }
      var i := curSessionRoundRobin;
      curSessionRoundRobin := curSessionRoundRobin + 1;
      curSessionRoundRobin := curSessionRoundRobin % |sessions|;
      return sessions[i];
    }

    /** Whether the i-th session from the cursor on is connected. */
    ghost predicate ConnectedAhead(cursor: nat, i: nat, connected: set<Session>)
      requires sessions != []
      reads this`sessions
    {
      sessions[(cursor + i) % |sessions|] in connected
    }

    /** `connected` is what the sessions answer during the call.  The first connected session from the
        cursor on is returned and the cursor goes behind it; without one the session just before the
        cursor is returned and the cursor is back where it was; without sessions there is none. */
    method GetNextConnectedSessionRoundRobin(connected: set<Session>) returns (session: Option<Session>)
      requires sessions != [] ==> CursorServes()
      modifies this`curSessionRoundRobin
      ensures session == None <==> sessions == []
      ensures sessions != [] ==> CursorServes()
      ensures (exists s :: s in sessions && s in connected) ==> session.Some? && session.value in connected
      ensures session.Some? && session.value in connected ==>
                exists j: nat :: j < |sessions|
                  && ConnectedAhead(old(curSessionRoundRobin), j, connected)
                  && (forall i: nat :: i < j ==> !ConnectedAhead(old(curSessionRoundRobin), i, connected))
                  && session.value == sessions[(old(curSessionRoundRobin) + j) % |sessions|]
                  && curSessionRoundRobin == CursorAfter(old(curSessionRoundRobin), j + 1)
      ensures session.Some? && session.value !in connected ==>
                session.value == sessions[(old(curSessionRoundRobin) + |sessions| - 1) % |sessions|]
                && curSessionRoundRobin == old(curSessionRoundRobin)
    {
      session := None;
      ghost var start := curSessionRoundRobin;
      var n := |sessions|;
      if n > 1 {
        FullTurn(start, n);
      }
      for i := 0 to n
        invariant n > 0 ==> curSessionRoundRobin == CursorAfter(start, i)
        invariant i == 0 ==> session == None
        invariant i > 0 ==> session == Some(sessions[Ahead(start, i - 1, n)]) && session.value !in connected
        invariant forall j: nat :: j < i ==> !ConnectedAhead(start, j, connected)
      {
        AheadByOne(start, i, n);
        if n > 1 {
          FullTurn(curSessionRoundRobin, n);
        }
        var next := GetNextSessionRoundRobin();
        session := Some(next);
        if next in connected {
          assert ConnectedAhead(start, i, connected);
          return;
        }
      }
      forall s | s in sessions
        ensures s !in connected
      {
        var place :| 0 <= place < n && sessions[place] == s;
        if n > 1 {
          EveryPlaceIsAhead(start, place, n);
        } else {
          assert Ahead(start, 0, n) == place;
        }
        var i: nat :| i < n && Ahead(start, i, n) == place;
        assert !ConnectedAhead(start, i, connected);
      }
    }
  }
}

module SelectorPools {
  import opened Modular

  type Session = nat

  /** How many of n sessions the selector at place j of m gets. */
  function Share(n: nat, m: nat, j: nat): nat
    requires m > 0
  {
    n / m + (if j < n % m then 1 else 0)
  }

  /** One more session goes to the place of the cursor, and the cursor moves on. */
  lemma ShareOfNext(n: nat, m: nat, j: nat)
    requires j < m
    ensures Share(n + 1, m, j) == Share(n, m, j) + (if j == n % m then 1 else 0)
    ensures (n + 1) % m == if n % m + 1 == m then 0 else n % m + 1
  {
    DivModByOne(n, m);
  }

  /** The shares are the floor or the ceiling of n / m. */
  lemma ShareIsBalanced(n: nat, m: nat, j: nat)
    requires j < m
    ensures Share(n, m, j) == n / m || Share(n, m, j) == (n + m - 1) / m
    ensures n % m == 0 ==> Share(n, m, j) == n / m == (n + m - 1) / m
  {
    var q, r := n / m, n % m;
    assert n == q * m + r;
    if r == 0 {
      DivModUnique(n + m - 1, m, q, m - 1);
    } else {
      assert (q + 1) * m == q * m + m;
      DivModUnique(n + m - 1, m, q + 1, r - 1);
    }
  }

  class IRCSelectorPool {
    var selectors: seq<seq<Session>>
    var curSelectorRoundRobin: nat
    ghost var added: nat

    /** After `added` calls each selector has its share, and the next session goes to place added % m. */
    ghost predicate Valid()
      reads this
    {
      && selectors != []
      && curSelectorRoundRobin == added % |selectors|
      && forall j :: 0 <= j < |selectors| ==> |selectors[j]| == Share(added, |selectors|, j)
    }

    /** The constructor and init: that many selectors without sessions. */
    constructor (threads: nat)
      requires threads > 0
      ensures Valid() && |selectors| == threads && added == 0
    {
      selectors := seq(threads, _ => []);
      curSelectorRoundRobin := 0;
      added := 0;
    }

    method GetNextSelectorRoundRobin() returns (place: nat)
      requires selectors != [] && curSelectorRoundRobin < |selectors|
      modifies this`curSelectorRoundRobin
      ensures place == old(curSelectorRoundRobin)
      ensures curSelectorRoundRobin == if place + 1 == |selectors| then 0 else place + 1
    {
      if |selectors| == 1 {
        return 0;
      }
      var i := curSelectorRoundRobin;
      curSelectorRoundRobin := curSelectorRoundRobin + 1;
      curSelectorRoundRobin := curSelectorRoundRobin % |selectors|;
      return i;
    }

    method AddSession(session: Session)
      requires Valid()
      modifies this
      ensures Valid() && added == old(added) + 1
      ensures |selectors| == |old(selectors)|
      ensures var j := old(added) % |selectors|;
              selectors == old(selectors)[j := old(selectors)[j] + [session]]
      ensures forall j :: 0 <= j < |selectors| ==>
                |selectors[j]| == added / |selectors| || |selectors[j]| == (added + |selectors| - 1) / |selectors|
    {
      ghost var m, n := |selectors|, added;
      forall j | 0 <= j < m
        ensures Share(n + 1, m, j) == Share(n, m, j) + (if j == n % m then 1 else 0)
        ensures (n + 1) % m == if n % m + 1 == m then 0 else n % m + 1
        ensures Share(n + 1, m, j) == (n + 1) / m || Share(n + 1, m, j) == (n + 1 + m - 1) / m
      {
        ShareOfNext(n, m, j);
        ShareIsBalanced(n + 1, m, j);
      }
      hide Share;
      var place := GetNextSelectorRoundRobin();
      selectors := selectors[place := selectors[place] + [session]];
      added := added + 1;
    }
  }
}
