/** Sorting a set of digests by a two-part key, with the digest itself to break ties.  A set has one
    sorted arrangement, so the order in which it is iterated has no influence. */
module Sorting {
  import opened Quorums

  type Key = Digest -> (nat, nat)

  predicate Before(key: Key, x: Digest, y: Digest) {
    || key(x).0 < key(y).0
    || (key(x).0 == key(y).0 && key(x).1 < key(y).1)
    || (key(x) == key(y) && x < y)
  }

  predicate IsFirst(key: Key, s: set<Digest>, m: Digest) {
    m in s && forall x | x in s :: x == m || Before(key, m, x)
  }

  lemma {:induction false} FirstExists(key: Key, s: set<Digest>) returns (m: Digest)
    requires s != {}
    ensures IsFirst(key, s, m)
  {
    m :| m in s;
    var rest := s - {m};
    assert s == rest + {m};
    if rest != {} {
      var b := FirstExists(key, rest);
      if Before(key, b, m) { m := b; }
    }
  }

  function First(key: Key, s: set<Digest>): (m: Digest)
    requires s != {}
    ensures IsFirst(key, s, m)
  {
    assert exists m :: IsFirst(key, s, m) by { var m := FirstExists(key, s); }
    var m :| IsFirst(key, s, m);
    m
  }

  /** The members of `s` in order. */
  function Sorted(key: Key, s: set<Digest>): seq<Digest> {
    if s == {} then []
    else
      var m := First(key, s);
      [m] + Sorted(key, s - {m})
  }

  ghost function Elems(xs: seq<Digest>): set<Digest> { set x | x in xs }

  ghost predicate InOrder(key: Key, xs: seq<Digest>) {
    forall i, j :: 0 <= i < j < |xs| ==> Before(key, xs[i], xs[j])
  }

  lemma {:induction false} SortedElems(key: Key, s: set<Digest>)
    ensures Elems(Sorted(key, s)) == s
    ensures forall x :: x in Sorted(key, s) <==> x in s
    decreases s
  {
    if s != {} {
      var m := First(key, s);
      SortedElems(key, s - {m});
      assert s == (s - {m}) + {m};
    }
  }

  lemma {:induction false} SortedInOrder(key: Key, s: set<Digest>)
    ensures Elems(Sorted(key, s)) == s && InOrder(key, Sorted(key, s)) && Distinct(Sorted(key, s))
    decreases s
  {
    SortedElems(key, s);
    if s != {} {
      var m := First(key, s);
      SortedElems(key, s - {m});
      SortedInOrder(key, s - {m});
      var t := Sorted(key, s - {m});
      forall j | 0 <= j < |t| ensures t[j] in s && Before(key, m, t[j]) {
        assert t[j] in t;
      }
    }
  }

  /** There is only one sorted arrangement of a set, so any correct sort gives this one. */
  lemma {:induction false} SortedUnique(key: Key, s: set<Digest>, xs: seq<Digest>)
    requires Elems(xs) == s && InOrder(key, xs)
    ensures xs == Sorted(key, s)
    decreases s
  {
    assert xs != [] ==> xs[0] in Elems(xs);
    if s != {} {
      var m := First(key, s);
      assert m in xs;
      var k :| 0 <= k < |xs| && xs[k] == m;
      assert xs[0] in s;
      assert xs == [xs[0]] + xs[1..];
      assert m == xs[0];
      forall x | x in s - {m} ensures x in Elems(xs[1..]) {
        assert x in xs;
      }
      forall x | x in Elems(xs[1..]) ensures x in s - {m} {
        var j :| 0 <= j < |xs[1..]| && xs[1..][j] == x;
        assert xs[j + 1] == x && Before(key, xs[0], xs[j + 1]);
        assert x in Elems(xs);
      }
      SortedUnique(key, s - {m}, xs[1..]);
    }
  }

  /** Only the keys of the members matter. */
  lemma {:induction false} SortedSame(key: Key, key': Key, s: set<Digest>)
    requires forall x :: x in s ==> key(x) == key'(x)
    ensures Sorted(key, s) == Sorted(key', s)
    decreases s
  {
    if s != {} {
      var m, n := First(key, s), First(key', s);
      assert m == n;
      SortedSame(key, key', s - {m});
    }
  }
}
