// Counting the members of a set when one of them moves.
module Counting {
  function One(b: bool): nat {
    if b then 1 else 0
  }

  lemma CardinalityMove<T>(a: set<T>, b: set<T>, x: T)
    requires a - {x} == b - {x}
    ensures |b| + One(x in a) == |a| + One(x in b)
  {
    if x in a {
      assert a == (a - {x}) + {x};
    }
    if x in b {
      assert b == (b - {x}) + {x};
    }
  }

  /** The places of a sequence at which p holds. */
  function Places<T>(s: seq<T>, p: T -> bool): set<nat> {
    set i | 0 <= i < |s| && p(s[i])
  }

  lemma PlacesSnoc<T>(s: seq<T>, last: T, p: T -> bool)
    ensures |Places(s + [last], p)| == |Places(s, p)| + One(p(last))
  {
    var t := s + [last];
    assert forall i :: 0 <= i < |s| ==> t[i] == s[i];
    if p(last) {
      assert Places(t, p) == Places(s, p) + {|s|};
    } else {
      assert Places(t, p) == Places(s, p);
    }
  }
}
