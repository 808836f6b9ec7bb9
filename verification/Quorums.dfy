/** Weighted committees: stake of a set of authorities, the two thresholds, and the
    intersection facts on which every commit rule of the repository rests. */
module Quorums {

  type Author = nat
  type Round = nat
  type Digest = nat

  datatype Option<+T> = None | Some(value: T)

  /** The authorities and their voting power.  Stakes are unbounded naturals. */
  datatype Committee = Committee(authorities: map<Author, nat>) {

    function Stake(name: Author): nat {
      if name in authorities then authorities[name] else 0
    }

    /** Total stake of a set of names; names outside the committee weigh nothing. */
    function Weight(names: set<Author>): nat {
      if names == {} then 0
      else
        var a := Least(names);
        Stake(a) + Weight(names - {a})
    }

    function Total(): nat { Weight(authorities.Keys) }

    function QuorumThreshold(): nat { 2 * Total() / 3 + 1 }

    function ValidityThreshold(): nat { (Total() + 2) / 3 }
  }

  ghost predicate Distinct<T(!new)>(xs: seq<T>) {
    forall i, j :: 0 <= i < j < |xs| ==> xs[i] != xs[j]
  }

  /** The smallest member, so that iteration over a set is deterministic. */
  function Least(s: set<nat>): (m: nat)
    requires s != {}
    ensures m in s && forall x | x in s :: m <= x
  {
    assert exists m :: IsLeast(s, m) by { var m := LeastExists(s); }
    var m :| IsLeast(s, m);
    m
  }

  predicate IsLeast(s: set<nat>, m: nat) {
    m in s && forall x | x in s :: m <= x
  }

  lemma {:induction false} LeastExists(s: set<nat>) returns (m: nat)
    requires s != {}
    ensures IsLeast(s, m)
  {
    m :| m in s;
    var rest := s - {m};
    assert s == rest + {m};
    if rest != {} {
      var b := LeastExists(rest);
      if b < m { m := b; }
    }
  }

  lemma {:induction false} WeightAdd(c: Committee, s: set<Author>, a: Author)
    requires a !in s
    ensures c.Weight(s + {a}) == c.Weight(s) + c.Stake(a)
    decreases s
  {
    var t := s + {a};
    var m := Least(t);
    if m == a {
      assert t - {a} == s;
    } else {
      assert Least(s) == m;
      assert t - {m} == (s - {m}) + {a};
      WeightAdd(c, s - {m}, a);
    }
  }

  lemma {:induction false} WeightUnion(c: Committee, s: set<Author>, t: set<Author>)
    ensures c.Weight(s + t) + c.Weight(s * t) == c.Weight(s) + c.Weight(t)
    decreases t
  {
    if t == {} {
      assert s + t == s && s * t == {};
    } else {
      var a :| a in t;
      var t' := t - {a};
      WeightUnion(c, s, t');
      WeightAdd(c, t', a);
      assert t' + {a} == t;
      if a in s {
        assert s + t == s + t' && s * t == s * t' + {a};
        WeightAdd(c, s * t', a);
      } else {
        assert s + t == (s + t') + {a} && s * t == s * t';
        WeightAdd(c, s + t', a);
      }
    }
  }

  lemma WeightMonotone(c: Committee, s: set<Author>, t: set<Author>)
    requires s <= t
    ensures c.Weight(s) <= c.Weight(t)
  {
    WeightUnion(c, s, t - s);
    assert s + (t - s) == t && s * (t - s) == {};
  }

  lemma {:induction false} WeightOutside(c: Committee, s: set<Author>)
    requires s !! c.authorities.Keys
    ensures c.Weight(s) == 0
    decreases s
  {
    if s != {} { WeightOutside(c, s - {Least(s)}); }
  }

  lemma WeightAtMostTotal(c: Committee, s: set<Author>)
    ensures c.Weight(s) <= c.Total()
  {
    var k := c.authorities.Keys;
    WeightUnion(c, s * k, s - k);
    assert s * k + (s - k) == s && (s * k) * (s - k) == {};
    WeightOutside(c, s - k);
    WeightMonotone(c, s * k, k);
  }

  /** The comments on the two thresholds: with total stake N = 3f + 1 + k, 0 <= k < 3,
      a quorum is N - f and validity is f + 1. */
  lemma ThresholdArithmetic(c: Committee)
    requires c.Total() >= 1
    ensures var n := c.Total(); var f := (n - 1) / 3;
            && c.QuorumThreshold() == n - f
            && c.ValidityThreshold() == f + 1
            && c.QuorumThreshold() + c.ValidityThreshold() == n + 1
            && 2 * c.QuorumThreshold() > n + f
  {
  }

  /** Any two quorums share at least validity-threshold stake. */
  lemma QuorumsIntersect(c: Committee, s: set<Author>, t: set<Author>)
    requires c.Weight(s) >= c.QuorumThreshold() && c.Weight(t) >= c.QuorumThreshold()
    ensures c.Weight(s * t) >= c.ValidityThreshold()
    ensures c.Weight(s * t) > 0
  {
    WeightUnion(c, s, t);
    WeightAtMostTotal(c, s + t);
    WeightAtMostTotal(c, s);
  }

  /** Two quorums share a member outside any set lighter than the validity threshold. */
  lemma HonestIntersection(c: Committee, byz: set<Author>, s: set<Author>, t: set<Author>)
    returns (h: Author)
    requires c.Weight(byz) < c.ValidityThreshold()
    requires c.Weight(s) >= c.QuorumThreshold() && c.Weight(t) >= c.QuorumThreshold()
    ensures h in s && h in t && h !in byz
  {
    QuorumsIntersect(c, s, t);
    if s * t <= byz {
      WeightMonotone(c, s * t, byz);
      assert false;
    }
    h :| h in s * t && h !in byz;
  }

  /** A quorum meets every set of validity-threshold stake. */
  lemma QuorumMeetsValidity(c: Committee, s: set<Author>, t: set<Author>)
    returns (a: Author)
    requires c.Weight(s) >= c.QuorumThreshold() && c.Weight(t) >= c.ValidityThreshold()
    ensures a in s && a in t
  {
    WeightUnion(c, s, t);
    WeightAtMostTotal(c, s + t);
    if s * t == {} {
      assert false;
    }
    a :| a in s * t;
  }

  /** After a quorum is used up, what is left of the committee is below a quorum. */
  lemma NoTwoDisjointQuorums(c: Committee, s: set<Author>, t: set<Author>)
    requires c.Weight(s) >= c.QuorumThreshold() && s !! t
    ensures c.Weight(t) < c.QuorumThreshold()
  {
    assert s * t == {};
    if c.Weight(t) >= c.QuorumThreshold() {
      QuorumsIntersect(c, s, t);
    }
  }

  /** Where every authority weighs something, enough authors carry enough stake. */
  lemma {:induction false} WeightAtLeastCount(c: Committee, s: set<Author>)
    requires forall a :: a in s ==> c.Stake(a) >= 1
    ensures c.Weight(s) >= |s|
    decreases s
  {
    if s != {} {
      var a := Least(s);
      WeightAtLeastCount(c, s - {a});
    }
  }

  lemma {:induction false} UnitWeight(c: Committee, s: set<Author>)
    requires forall a :: a in s ==> c.Stake(a) == 1
    ensures c.Weight(s) == |s|
    decreases s
  {
    if s != {} {
      var a := Least(s);
      UnitWeight(c, s - {a});
    }
  }

  /** A committee in which one member outweighs the other, for examples. */
  function Uneven(): Committee { Committee(map[0 := 3, 1 := 1]) }

  lemma UnevenWeights()
    ensures Uneven().Weight({0}) == 3 && Uneven().QuorumThreshold() == 3 && Uneven().ValidityThreshold() == 2
  {
    var c := Uneven();
    WeightAdd(c, {}, 0);
    WeightAdd(c, {0}, 1);
    assert {} + {0} == {0} && c.authorities.Keys == {0} + {1};
  }
}
