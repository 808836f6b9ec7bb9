/** Shortfin wave collection: the worklist computes the least closed set above the commit
    frontier, and the output is the one (round, digest)-sorted sequence of a declared set. */
module ShortfinWave {
  import opened Quorums
  import opened ConsensusState
  import opened Shortfin
  import opened Sorting

  // ---------------------------------------------------------------- causal reachability

  predicate Live(last: map<Author, Round>, floor: Round, c: Certificate) {
    c.Round() >= floor && !Stale(last, c)
  }

  function Links(c: Certificate): set<Digest> { c.header.parents + c.header.parents2 }

  /** `s` holds the live seeds and is closed under links to live indexed records. */
  ghost predicate ReachClosed(records: Records, seeds: seq<Certificate>, index: Records, last: map<Author, Round>,
                              floor: Round, s: set<Digest>) {
    && (forall c :: c in seeds && Live(last, floor, c) ==> c.Digest() in s)
    && (forall d, p :: d in s && d in records && p in Links(records[d]) && p in index && Live(last, floor, index[p]) ==>
          p in s)
  }

  /** The least such set. */
  ghost predicate LeastReach(records: Records, seeds: seq<Certificate>, index: Records, last: map<Author, Round>,
                             floor: Round, r: set<Digest>) {
    && ReachClosed(records, seeds, index, last, floor, r)
    && (forall s :: ReachClosed(records, seeds, index, last, floor, s) ==> r <= s)
  }

  /** The least set is unique, so the answer does not depend on the order of the walk. */
  lemma LeastReachUnique(records: Records, seeds: seq<Certificate>, index: Records, last: map<Author, Round>,
                         floor: Round, r: set<Digest>, r': set<Digest>)
    requires LeastReach(records, seeds, index, last, floor, r) && LeastReach(records, seeds, index, last, floor, r')
    ensures r == r'
  {
  }

  ghost predicate Stored(records: Records, cs: seq<Certificate>) {
    forall c :: c in cs ==> c.Digest() in records && records[c.Digest()] == c
  }

  /** 100 rounds below the lowest seed. */
  function Floor(seeds: seq<Certificate>): Round {
    var low := LowestRound(seeds);
    if low < 100 then 0 else low - 100
  }

  function LowestRound(seeds: seq<Certificate>): (r: Round)
    ensures forall c :: c in seeds ==> r <= c.Round()
    ensures seeds != [] ==> exists c :: c in seeds && c.Round() == r
  {
    if seeds == [] then 0
    else if |seeds| == 1 then
      assert seeds[0] in seeds;
      seeds[0].Round()
    else
      var r := LowestRound(seeds[1..]);
      assert seeds == [seeds[0]] + seeds[1..];
      if seeds[0].Round() < r then
        assert seeds[0] in seeds;
        seeds[0].Round()
      else
        assert exists c :: c in seeds && c.Round() == r by {
          var c :| c in seeds[1..] && c.Round() == r;
          assert c in seeds;
        }
        r
  }

  /** Push the indexed records with these digests that are not reachable yet. */
  method PushLinks(index: Records, digests: set<Digest>, reachable: set<Digest>, buffer: seq<Certificate>)
    returns (buffer': seq<Certificate>)
    requires WellIndexed(index)
    ensures forall c :: c in buffer' <==>
              c in buffer || (c.Digest() in digests && c.Digest() in index && c.Digest() !in reachable
                  && index[c.Digest()] == c)
  {
    buffer' := buffer;
    var rest := digests;
    while rest != {}
      invariant rest <= digests
      invariant forall c :: c in buffer' <==>
        c in buffer || (c.Digest() in digests - rest && c.Digest() in index && c.Digest() !in reachable
            && index[c.Digest()] == c)
      decreases rest
    {
      var d := Least(rest);
      rest := rest - {d};
      if d in index && d !in reachable {
        buffer' := buffer' + [index[d]];
      }
    }
  }

  /** State of the worklist: everything still missing is on the buffer, and nothing is reachable
      that is not in every closed set. */
  ghost predicate Walking(records: Records, seeds: seq<Certificate>, index: Records, last: map<Author, Round>,
                          floor: Round, reachable: set<Digest>, buffer: seq<Certificate>) {
    && Stored(records, buffer) && reachable <= records.Keys
    && (forall c :: c in seeds && Live(last, floor, c) ==> c.Digest() in reachable || c in buffer)
    && (forall d, p :: d in reachable && p in Links(records[d]) && p in index && Live(last, floor, index[p]) ==>
          p in reachable || index[p] in buffer)
    && (forall s :: ReachClosed(records, seeds, index, last, floor, s) ==> reachable <= s)
    && (forall s, c :: ReachClosed(records, seeds, index, last, floor, s) && c in buffer && Live(last, floor, c) ==>
        c.Digest() in s)
  }

  method CausalReachability(ghost records: Records, seeds: seq<Certificate>, index: Records, last: map<Author, Round>)
    returns (reachable: set<Digest>)
    requires WellIndexed(index) && Stored(records, seeds)
    requires forall d :: d in index ==> d in records && records[d] == index[d]
    ensures LeastReach(records, seeds, index, last, Floor(seeds), reachable)
    ensures reachable <= records.Keys
  {
    hide Walking, Live, LeastReach, WellIndexed, Stored;
    var floor := Floor(seeds);
    reachable := {};
    var buffer := seeds;
    WalkStart(records, seeds, index, last, floor);
    while buffer != []
      invariant Walking(records, seeds, index, last, floor, reachable, buffer)
      decreases records.Keys - reachable, |buffer|
    {
      var cert := buffer[|buffer| - 1];
      var rest := buffer[..|buffer| - 1];
      assert buffer == rest + [cert];
      WalkPop(records, seeds, index, last, floor, reachable, rest, cert);
      if !Live(last, floor, cert) || cert.Digest() in reachable {
        buffer := rest;
      } else {
        var seen := reachable + {cert.Digest()};
        var pushed := PushLinks(index, cert.header.parents, seen, rest);
        buffer := PushLinks(index, cert.header.parents2, seen, pushed);
        WalkPush(records, seeds, index, last, floor, reachable, rest, cert, buffer);
        reachable := seen;
      }
    }
    ReachEnd(records, seeds, index, last, floor, reachable);
  }

  lemma WalkStart(records: Records, seeds: seq<Certificate>, index: Records, last: map<Author, Round>, floor: Round)
    requires Stored(records, seeds)
    ensures Walking(records, seeds, index, last, floor, {}, seeds)
  {
  }

  lemma WalkPop(records: Records, seeds: seq<Certificate>, index: Records, last: map<Author, Round>, floor: Round,
                reachable: set<Digest>, rest: seq<Certificate>, cert: Certificate)
    requires Walking(records, seeds, index, last, floor, reachable, rest + [cert])
    requires WellIndexed(index)
    ensures cert.Digest() in records && records[cert.Digest()] == cert
    ensures !Live(last, floor, cert) || cert.Digest() in reachable ==>
              Walking(records, seeds, index, last, floor, reachable, rest)
  {
    hide Live, ReachClosed;
    assert cert in rest + [cert];
    forall c ensures c in rest + [cert] <==> c in rest || c == cert {}
  }

  lemma WalkPush(records: Records, seeds: seq<Certificate>, index: Records, last: map<Author, Round>, floor: Round,
                 reachable: set<Digest>, rest: seq<Certificate>, cert: Certificate, buffer: seq<Certificate>)
    requires Walking(records, seeds, index, last, floor, reachable, rest + [cert])
    requires WellIndexed(index) && forall d :: d in index ==> d in records && records[d] == index[d]
    requires Live(last, floor, cert) && cert.Digest() in records && records[cert.Digest()] == cert
    requires forall c :: c in buffer <==>
               c in rest || (c.Digest() in Links(cert) && c.Digest() in index
                   && c.Digest() !in reachable + {cert.Digest()}
                             && index[c.Digest()] == c)
    ensures Walking(records, seeds, index, last, floor, reachable + {cert.Digest()}, buffer)
  {
    hide Live;
    var seen := reachable + {cert.Digest()};
    forall c ensures c in rest + [cert] <==> c in rest || c == cert {}
    forall d, p | d in seen && p in Links(records[d]) && p in index && Live(last, floor, index[p])
      ensures p in seen || index[p] in buffer
    {
      assert index[p].Digest() == p;
    }
    forall s | ReachClosed(records, seeds, index, last, floor, s)
      ensures seen <= s && forall c :: c in buffer && Live(last, floor, c) ==> c.Digest() in s
    {
      assert cert in rest + [cert];
      assert cert.Digest() in s;
    }
  }

  lemma ReachEnd(records: Records, seeds: seq<Certificate>, index: Records, last: map<Author, Round>, floor: Round,
                reachable: set<Digest>)
    requires Walking(records, seeds, index, last, floor, reachable, [])
    ensures LeastReach(records, seeds, index, last, floor, reachable) && reachable <= records.Keys
  {
    hide Live;
  }

  // ---------------------------------------------------------------- anchoring

  /** Authors of boundary-round records that reference `d`; an author counts once however many
      variants it emits. */
  ghost function AnchorAuthors(records: Records, commitRound: Round, d: Digest): set<Author> {
    set k | k in records && Anchors(records[k], commitRound, d) :: records[k].Origin()
  }

  predicate Anchors(c: Certificate, commitRound: Round, d: Digest) { c.Round() == commitRound && d in c.header.parents }

  /** Referenced by at least `threshold` authors of the boundary round. */
  ghost predicate Anchored(records: Records, commitRound: Round, threshold: nat, d: Digest) {
    AnchorAuthors(records, commitRound, d) != {} && |AnchorAuthors(records, commitRound, d)| >= threshold
  }

  /** Parents referenced by each boundary author, over all its variants among `ks`. */
  ghost predicate RefsExact(records: Records, commitRound: Round, ks: set<Digest>, refs: map<Author, set<Digest>>) {
    forall a, p :: (a in refs && p in refs[a]) <==> RefBy(records, commitRound, ks, a, p)
  }

  ghost predicate RefBy(records: Records, commitRound: Round, ks: set<Digest>, a: Author, p: Digest) {
    exists k :: k in ks && k in records && records[k].Origin() == a && Anchors(records[k], commitRound, p)
  }

  method CollectRefs(records: Records, commitRound: Round) returns (refs: map<Author, set<Digest>>)
    ensures RefsExact(records, commitRound, records.Keys, refs)
  {
    refs := map[];
    var rest := records.Keys;
    ghost var done: set<Digest> := {};
    while rest != {}
      invariant done + rest == records.Keys
      invariant RefsExact(records, commitRound, done, refs)
      decreases rest
    {
      var k := Least(rest);
      var c := records[k];
      ghost var before := refs;
      if c.Round() == commitRound {
        var old' := if c.Origin() in refs then refs[c.Origin()] else {};
        refs := refs[c.Origin() := old' + c.header.parents];
      }
      RefsStep(records, commitRound, done, k, before, refs);
      rest, done := rest - {k}, done + {k};
    }
    assert done == records.Keys;
  }

  lemma RefsStep(records: Records, commitRound: Round, ks: set<Digest>, k: Digest,
                 refs: map<Author, set<Digest>>, refs': map<Author, set<Digest>>)
    requires RefsExact(records, commitRound, ks, refs) && k in records
    requires forall a, p :: (a in refs' && p in refs'[a]) <==>
               (a in refs && p in refs[a]) || (records[k].Origin() == a && Anchors(records[k], commitRound, p))
    ensures RefsExact(records, commitRound, ks + {k}, refs')
  {
    hide Anchors;
    forall a, p ensures RefBy(records, commitRound, ks + {k}, a, p) <==>
                        RefBy(records, commitRound, ks, a, p)
                        || (records[k].Origin() == a && Anchors(records[k], commitRound, p)) {
      if RefBy(records, commitRound, ks, a, p) {
        var j :| j in ks && j in records && records[j].Origin() == a && Anchors(records[j], commitRound, p);
        assert j in ks + {k};
      }
      assert k in ks + {k};
    }
  }

  /** Turn references by author into authors by reference. */
  method InvertRefs(refs: map<Author, set<Digest>>) returns (anchored: map<Digest, set<Author>>)
    ensures forall p, a :: (p in anchored && a in anchored[p]) <==> a in refs && p in refs[a]
    ensures forall p :: p in anchored ==> anchored[p] != {}
  {
    anchored := map[];
    var rest := refs.Keys;
    while rest != {}
      invariant rest <= refs.Keys
      invariant forall p, a :: (p in anchored && a in anchored[p]) <==> a in refs && a !in rest && p in refs[a]
      invariant forall p :: p in anchored ==> anchored[p] != {}
      decreases rest
    {
      var a := Least(rest);
      anchored := map p | p in anchored.Keys + refs[a] ::
        (if p in anchored then anchored[p] else {}) + (if p in refs[a] then {a} else {});
      rest := rest - {a};
    }
  }

  /** How many authors of the boundary round reference each digest. */
  method CountAnchors(records: Records, commitRound: Round) returns (anchored: map<Digest, set<Author>>)
    ensures forall d :: d in anchored <==> AnchorAuthors(records, commitRound, d) != {}
    ensures forall d :: d in anchored ==> anchored[d] == AnchorAuthors(records, commitRound, d)
  {
    var refs := CollectRefs(records, commitRound);
    anchored := InvertRefs(refs);
    forall d ensures (d in anchored <==> AnchorAuthors(records, commitRound, d) != {})
                     && (d in anchored ==> anchored[d] == AnchorAuthors(records, commitRound, d)) {
      AnchorsByRefs(records, commitRound, refs, d);
    }
  }

  lemma AnchorsByRefs(records: Records, commitRound: Round, refs: map<Author, set<Digest>>, d: Digest)
    requires RefsExact(records, commitRound, records.Keys, refs)
    ensures forall a :: a in AnchorAuthors(records, commitRound, d) <==> a in refs && d in refs[a]
  {
    hide Anchors;
    forall a ensures a in AnchorAuthors(records, commitRound, d) <==> RefBy(records, commitRound, records.Keys, a, d) {}
  }

  // ---------------------------------------------------------------- counting authors and counting stake

  /** The anchoring authors carry validity-threshold stake. */
  ghost predicate StakeAnchored(c: Committee, records: Records, commitRound: Round, d: Digest) {
    c.Weight(AnchorAuthors(records, commitRound, d)) >= c.ValidityThreshold()
  }

  /** With unit stakes the author count decides what the stake would. */
  lemma AnchoredByUnitStake(c: Committee, records: Records, commitRound: Round, d: Digest)
    requires c.Total() >= 1
    requires forall a :: a in AnchorAuthors(records, commitRound, d) ==> c.Stake(a) == 1
    ensures Anchored(records, commitRound, c.ValidityThreshold(), d) <==> StakeAnchored(c, records, commitRound, d)
  {
    UnitWeight(c, AnchorAuthors(records, commitRound, d));
  }

  /** With positive stakes the author count never anchors too much. */
  lemma AnchoredHasStake(c: Committee, records: Records, commitRound: Round, d: Digest)
    requires forall a :: a in AnchorAuthors(records, commitRound, d) ==> c.Stake(a) >= 1
    requires Anchored(records, commitRound, c.ValidityThreshold(), d)
    ensures StakeAnchored(c, records, commitRound, d)
  {
    WeightAtLeastCount(c, AnchorAuthors(records, commitRound, d));
  }

  /** The count and the stake reading of the threshold agree on these authors. */
  ghost predicate Alike(c: Committee, s: set<Author>) {
    |s| >= c.ValidityThreshold() <==> c.Weight(s) >= c.ValidityThreshold()
  }

  lemma {:induction false} FillUp(all: set<Author>, s: set<Author>, k: nat) returns (t: set<Author>)
    requires s <= all && |s| <= k <= |all|
    ensures s <= t <= all && |t| == k
    decreases k - |s|
  {
    t := s;
    if |s| < k {
      assert s != all;
      var a :| a in all && a !in s;
      t := FillUp(all, s + {a}, k);
    }
  }

  /** Exactly when the two readings agree for every set of authorities: no set of one author
      less than the threshold may weigh the threshold. */
  lemma CountsAlikeExactly(c: Committee)
    requires c.Total() >= 1 && forall a :: a in c.authorities ==> c.Stake(a) >= 1
    ensures var all, t := c.authorities.Keys, c.ValidityThreshold();
            (forall s :: s <= all ==> Alike(c, s)) <==>
            (|all| >= t - 1 && forall s :: s <= all && |s| == t - 1 ==> c.Weight(s) < t)
  {
    hide Committee.Weight;
    var all, t := c.authorities.Keys, c.ValidityThreshold();
    if forall s :: s <= all ==> Alike(c, s) {
      assert Alike(c, all);
    }
    if |all| >= t - 1 && forall s :: s <= all && |s| == t - 1 ==> c.Weight(s) < t {
      forall s | s <= all ensures Alike(c, s) {
        WeightAtLeastCount(c, s);
        if |s| < t {
          var u := FillUp(all, s, t - 1);
          WeightMonotone(c, s, u);
        }
      }
    }
  }

  function Referencing(a: Author, d: Digest, round: Round): Certificate {
    Certificate(Header(a, a, round, {d}, {}, None), [])
  }

  /** One heavy author carries the threshold alone, yet does not anchor. */
  lemma HeavyAuthorDoesNotAnchor() returns (c: Committee, records: Records)
    ensures StakeAnchored(c, records, 4, 9) && !Anchored(records, 4, c.ValidityThreshold(), 9)
  {
    c := Uneven();
    records := map[0 := Referencing(0, 9, 4)];
    assert AnchorAuthors(records, 4, 9) == {0} by { assert Anchors(records[0], 4, 9); }
    UnevenWeights();
  }

  // ---------------------------------------------------------------- sorting by (round, digest)

  /** Records are ordered by round, then digest. */
  function OrderOf(records: Records): Key { d => (if d in records then records[d].Round() else 0, 0) }

  function Arranged(records: Records, s: set<Digest>): (cs: seq<Certificate>)
    requires s <= records.Keys
    ensures |cs| == |Sorted(OrderOf(records), s)|
    ensures forall i :: 0 <= i < |cs| ==>
              Sorted(OrderOf(records), s)[i] in records && cs[i] == records[Sorted(OrderOf(records), s)[i]]
  {
    var ds := Sorted(OrderOf(records), s);
    SortedElems(OrderOf(records), s);
    seq(|ds|, i requires 0 <= i < |ds| => assert ds[i] in ds; records[ds[i]])
  }

  ghost predicate ByRoundAndDigest(cs: seq<Certificate>) {
    forall i, j :: 0 <= i < j < |cs| ==>
      cs[i].Round() < cs[j].Round() || (cs[i].Round() == cs[j].Round() && cs[i].Digest() < cs[j].Digest())
  }

  /** `cs` lists exactly the records of `s`. */
  ghost predicate Lists(records: Records, s: set<Digest>, cs: seq<Certificate>)
    requires s <= records.Keys
  {
    forall c :: c in cs <==> c.Digest() in s && records[c.Digest()] == c
  }

  lemma ArrangedSound(records: Records, s: set<Digest>)
    requires WellIndexed(records) && s <= records.Keys
    ensures ByRoundAndDigest(Arranged(records, s)) && Lists(records, s, Arranged(records, s))
  {
    hide Sorted;
    var ds, cs := Sorted(OrderOf(records), s), Arranged(records, s);
    SortedInOrder(OrderOf(records), s);
    SortedElems(OrderOf(records), s);
    forall i, j | 0 <= i < j < |cs|
      ensures cs[i].Round() < cs[j].Round() || (cs[i].Round() == cs[j].Round() && cs[i].Digest() < cs[j].Digest())
    {
      assert Before(OrderOf(records), ds[i], ds[j]);
    }
    forall c ensures c in cs <==> c.Digest() in s && records[c.Digest()] == c {
      if c in cs {
        var i :| 0 <= i < |cs| && cs[i] == c;
        assert ds[i] in ds;
      }
      if c.Digest() in s && records[c.Digest()] == c {
        var i :| 0 <= i < |ds| && ds[i] == c.Digest();
        assert cs[i] == c;
      }
    }
  }

  function DigestSeq(cs: seq<Certificate>): seq<Digest> { seq(|cs|, i requires 0 <= i < |cs| => cs[i].Digest()) }

  /** One ordered sequence per set of records: any correct sort returns it. */
  lemma ArrangedUnique(records: Records, s: set<Digest>, cs: seq<Certificate>)
    requires WellIndexed(records) && s <= records.Keys && ByRoundAndDigest(cs) && Lists(records, s, cs)
    ensures cs == Arranged(records, s)
  {
    hide Sorted;
    var ds := DigestSeq(cs);
    forall i | 0 <= i < |cs| ensures ds[i] in s && cs[i] == records[ds[i]] { assert cs[i] in cs; }
    forall d | d in s ensures d in Elems(ds) {
      assert records[d] in cs;
      var i :| 0 <= i < |cs| && cs[i] == records[d];
      assert ds[i] == d;
    }
    forall i, j | 0 <= i < j < |ds| ensures Before(OrderOf(records), ds[i], ds[j]) {
      assert cs[i] == records[ds[i]] && cs[j] == records[ds[j]];
    }
    SortedUnique(OrderOf(records), s, ds);
  }

  // ---------------------------------------------------------------- the wave

  /** Records below the boundary that their author has not committed past. */
  function UncommittedBelow(records: Records, last: map<Author, Round>, commitRound: Round): Records {
    map d | d in records && records[d].Round() < commitRound && !Stale(last, records[d]) :: records[d]
  }

  /** The commit frontier: the leader chain and the anchored records just below the boundary. */
  ghost predicate FrontierOf(records: Records, commitRound: Round, threshold: nat, chain: seq<Certificate>,
                             seeds: seq<Certificate>) {
    forall c :: c in seeds <==>
      c in chain || (c.Digest() in records && records[c.Digest()] == c && c.Round() + 1 == commitRound
                     && Anchored(records, commitRound, threshold, c.Digest()))
  }

  /** `r` is what the frontier reaches. */
  ghost predicate WaveReach(records: Records, last: map<Author, Round>, commitRound: Round, threshold: nat,
                            chain: seq<Certificate>, r: set<Digest>) {
    exists seeds ::
      FrontierOf(records, commitRound, threshold, chain, seeds)
      && LeastReach(records, seeds, UncommittedBelow(records, last, commitRound), last, Floor(seeds), r)
  }

  lemma WaveReachUnique(records: Records, last: map<Author, Round>, commitRound: Round, threshold: nat,
                        chain: seq<Certificate>, r: set<Digest>, r': set<Digest>)
    requires chain != []
    requires WaveReach(records, last, commitRound, threshold, chain, r)
    requires WaveReach(records, last, commitRound, threshold, chain, r')
    ensures r == r'
  {
    hide Anchored, Live;
    var index := UncommittedBelow(records, last, commitRound);
    var s :| FrontierOf(records, commitRound, threshold, chain, s) && LeastReach(records, s, index, last, Floor(s), r);
    var t :| FrontierOf(records, commitRound, threshold, chain, t) && LeastReach(records, t, index, last, Floor(t), r');
    assert chain[0] in s && chain[0] in t;
    SameFloor(s, t);
    assert ReachClosed(records, s, index, last, Floor(s), r');
    assert ReachClosed(records, t, index, last, Floor(t), r);
  }

  lemma SameFloor(s: seq<Certificate>, t: seq<Certificate>)
    requires s != [] && t != [] && forall c :: c in s <==> c in t
    ensures Floor(s) == Floor(t)
  {
  }

  /** A QC for `d` is exposed by the reached history or by a boundary record. */
  ghost predicate Exposed(records: Records, last: map<Author, Round>, commitRound: Round, r: set<Digest>, d: Digest) {
    exists k :: k in records && ExposedBy(records[k], last, commitRound, k in r, d)
  }

  predicate ExposedBy(c: Certificate, last: map<Author, Round>, commitRound: Round, reached: bool, d: Digest) {
    && c.header.qc.Some? && c.header.qc.value.target == d
    && ((c.Round() < commitRound && !Stale(last, c) && reached) || c.Round() == commitRound)
  }

  /** The records a wave outputs. */
  ghost predicate InWave(records: Records, last: map<Author, Round>, commitRound: Round, threshold: nat,
                         r: set<Digest>, d: Digest) {
    && d in records && records[d].Round() < commitRound && !Stale(last, records[d])
    && Exposed(records, last, commitRound, r, d) && records[d].votes != []
    && (if records[d].Round() + 1 == commitRound then Anchored(records, commitRound, threshold, d) else d in r)
  }

  /** The output of a wave: exactly its records, in (round, digest) order. */
  ghost predicate WaveOutput(records: Records, last: map<Author, Round>, commitRound: Round, threshold: nat,
                             r: set<Digest>, output: seq<Certificate>) {
    && ByRoundAndDigest(output)
    && (forall c :: c in output <==>
          InWave(records, last, commitRound, threshold, r, c.Digest()) && records[c.Digest()] == c)
  }

  /** The declared output is unique: hash-map iteration order has no influence. */
  lemma WaveOutputUnique(records: Records, last: map<Author, Round>, commitRound: Round, threshold: nat,
                         r: set<Digest>, xs: seq<Certificate>, ys: seq<Certificate>)
    requires WellIndexed(records)
    requires WaveOutput(records, last, commitRound, threshold, r, xs)
    requires WaveOutput(records, last, commitRound, threshold, r, ys)
    ensures xs == ys
  {
    hide InWave, ByRoundAndDigest;
    var s := set d | d in records && InWave(records, last, commitRound, threshold, r, d);
    InWaveStored(records, last, commitRound, threshold, r);
    ArrangedUnique(records, s, xs);
    ArrangedUnique(records, s, ys);
  }

  lemma InWaveStored(records: Records, last: map<Author, Round>, commitRound: Round, threshold: nat, r: set<Digest>)
    ensures forall d :: InWave(records, last, commitRound, threshold, r, d) ==> d in records
  {
  }

  /** What a wave outputs, on the records themselves.  A record of the last round before the boundary must
      be referenced by enough boundary authors, any other must be reached; and a record reached, or one
      of the boundary round, must carry a QC for it. */
  lemma WaveMeans(records: Records, last: map<Author, Round>, commitRound: Round, threshold: nat, r: set<Digest>,
                  output: seq<Certificate>, c: Certificate, anchors: set<Author>)
    requires WaveOutput(records, last, commitRound, threshold, r, output)
    requires forall a :: a in anchors <==>
               exists k :: k in records && records[k].header.author == a && records[k].header.round == commitRound
                           && c.header.id in records[k].header.parents
    ensures c in output <==>
            && c.header.id in records && records[c.header.id] == c && c.votes != [] && c.header.round < commitRound
            && !(c.header.author in last && last[c.header.author] >= c.header.round)
            && (if c.header.round + 1 == commitRound then anchors != {} && |anchors| >= threshold else c.header.id in r)
            && exists k :: k in records && records[k].header.qc.Some?
                && records[k].header.qc.value.target == c.header.id
                 && (records[k].header.round == commitRound
                     || (records[k].header.round < commitRound && k in r
                         && !(records[k].header.author in last
                              && last[records[k].header.author] >= records[k].header.round)))
  {
    hide ByRoundAndDigest;
    var d := c.header.id;
    forall a ensures a in anchors <==> a in AnchorAuthors(records, commitRound, d) {}
    assert anchors == AnchorAuthors(records, commitRound, d);
    if Exposed(records, last, commitRound, r, d) {
      var k :| k in records && ExposedBy(records[k], last, commitRound, k in r, d);
    }
    if k :| k in records && records[k].header.qc.Some? && records[k].header.qc.value.target == c.header.id
            && (records[k].header.round == commitRound
                || (records[k].header.round < commitRound && k in r
                    && !(records[k].header.author in last
                        && last[records[k].header.author] >= records[k].header.round))) {
      assert ExposedBy(records[k], last, commitRound, k in r, d);
    }
  }

  /** A frontier block whose QC only a boundary record carries is output. */
  lemma FrontierIsOutput(records: Records, last: map<Author, Round>, commitRound: Round, threshold: nat, r: set<Digest>,
                         output: seq<Certificate>, c: Certificate, carrier: Digest, anchors: set<Author>)
    requires WaveOutput(records, last, commitRound, threshold, r, output) && WellIndexed(records)
    requires c.header.id in records && records[c.header.id] == c && c.votes != [] && c.header.round + 1 == commitRound
    requires !(c.header.author in last && last[c.header.author] >= c.header.round)
    requires carrier in records && records[carrier].header.round == commitRound && records[carrier].header.qc.Some?
    requires records[carrier].header.qc.value.target == c.header.id
    requires anchors != {} && |anchors| >= threshold
    requires forall a :: a in anchors <==>
               exists k :: k in records && records[k].header.author == a && records[k].header.round == commitRound
                           && c.header.id in records[k].header.parents
    ensures c in output
  {
    hide WaveOutput;
    WaveMeans(records, last, commitRound, threshold, r, output, c, anchors);
  }

  // ---------------------------------------------------------------- what is reached, by paths

  /** A seed of the reach: a block of the leader chain, or a record of the last round before the boundary
      that enough boundary authors reference. */
  ghost predicate Seed(records: Records, commitRound: Round, threshold: nat, chain: seq<Certificate>, c: Certificate) {
    c in chain
    || (c.header.id in records && records[c.header.id] == c && c.header.round + 1 == commitRound
        && Anchored(records, commitRound, threshold, c.header.id))
  }

  /** No more than 100 rounds below `low`, and not yet committed past by its author. */
  ghost predicate Fresh(last: map<Author, Round>, low: Round, c: Certificate) {
    c.header.round + 100 >= low && !(c.header.author in last && last[c.header.author] >= c.header.round)
  }

  /** A path of fresh records from a seed down to `d`, along both kinds of parent links. */
  ghost predicate FreshPath(records: Records, last: map<Author, Round>, commitRound: Round, threshold: nat,
                            chain: seq<Certificate>, low: Round, path: seq<Certificate>, d: Digest) {
    && path != [] && Seed(records, commitRound, threshold, chain, path[0]) && path[|path| - 1].header.id == d
    && (forall i :: 0 <= i < |path| ==> Fresh(last, low, path[i]))
    && (forall i :: 1 <= i < |path| ==> LinkStep(records, commitRound, path[i - 1], path[i]))
  }

  ghost predicate LinkStep(records: Records, commitRound: Round, x: Certificate, y: Certificate) {
    && y.header.id in records && records[y.header.id] == y && y.header.round < commitRound
    && (y.header.id in x.header.parents || y.header.id in x.header.parents2)
  }

  /** `low` is the lowest round of the seeds. */
  ghost predicate LowestSeed(records: Records, commitRound: Round, threshold: nat, chain: seq<Certificate>,
                             low: Round) {
    && (forall c :: Seed(records, commitRound, threshold, chain, c) ==> low <= c.header.round)
    && exists c :: Seed(records, commitRound, threshold, chain, c) && c.header.round == low
  }

  /** The computed seeds and floor are the described ones. */
  lemma FloorOfSeeds(records: Records, commitRound: Round, threshold: nat, chain: seq<Certificate>,
                     seeds: seq<Certificate>, low: Round)
    requires chain != [] && WellIndexed(records) && FrontierOf(records, commitRound, threshold, chain, seeds)
    requires LowestSeed(records, commitRound, threshold, chain, low)
    ensures forall c :: c in seeds <==> Seed(records, commitRound, threshold, chain, c)
    ensures LowestRound(seeds) == low
    ensures forall last: map<Author, Round>, c :: Live(last, Floor(seeds), c) <==> Fresh(last, low, c)
  {
    hide Anchored;
    assert chain[0] in chain;
    assert chain[0] in seeds;
    var c :| Seed(records, commitRound, threshold, chain, c) && c.header.round == low;
    assert c in seeds;
  }

  lemma PathGrows(records: Records, last: map<Author, Round>, commitRound: Round, threshold: nat,
                  chain: seq<Certificate>, low: Round, path: seq<Certificate>, d: Digest, y: Certificate)
    requires FreshPath(records, last, commitRound, threshold, chain, low, path, d)
    requires Fresh(last, low, y) && LinkStep(records, commitRound, path[|path| - 1], y)
    ensures FreshPath(records, last, commitRound, threshold, chain, low, path + [y], y.header.id)
  {
    hide Seed, Fresh, LinkStep;
    var longer := path + [y];
    forall i | 1 <= i < |longer| ensures LinkStep(records, commitRound, longer[i - 1], longer[i]) {
      if i < |path| { assert longer[i - 1] == path[i - 1] && longer[i] == path[i]; }
    }
  }

  /** The last record of a path is the stored one. */
  lemma EndIsStored(records: Records, last: map<Author, Round>, commitRound: Round, threshold: nat,
                    chain: seq<Certificate>, low: Round, path: seq<Certificate>, d: Digest)
    requires Stored(records, chain) && FreshPath(records, last, commitRound, threshold, chain, low, path, d)
    ensures d in records && records[d] == path[|path| - 1]
  {
    hide Anchored;
    if |path| > 1 { assert LinkStep(records, commitRound, path[|path| - 2], path[|path| - 1]); }
  }

  lemma EndsAreClosed(records: Records, last: map<Author, Round>, commitRound: Round, threshold: nat,
                      chain: seq<Certificate>, seeds: seq<Certificate>, low: Round, r: set<Digest>)
    requires Stored(records, chain) && WellIndexed(records)
    requires forall c :: c in seeds <==> Seed(records, commitRound, threshold, chain, c)
    requires forall c :: Live(last, Floor(seeds), c) <==> Fresh(last, low, c)
    requires LeastReach(records, seeds, UncommittedBelow(records, last, commitRound), last, Floor(seeds), r)
    ensures forall d :: d in r ==>
              d in records && exists path :: FreshPath(records, last, commitRound, threshold, chain, low, path, d)
  {
    hide Seed, Fresh, FreshPath, Floor, Live;
    var index := UncommittedBelow(records, last, commitRound);
    var s := set d | d in records
                     && exists path :: FreshPath(records, last, commitRound, threshold, chain, low, path, d);
    forall c | c in seeds && Live(last, Floor(seeds), c) ensures c.Digest() in s {
      SeedPath(records, last, commitRound, threshold, chain, low, c);
    }
    forall d, p | d in s && d in records && p in Links(records[d]) && p in index && Live(last, Floor(seeds), index[p])
      ensures p in s
    {
      var path :| FreshPath(records, last, commitRound, threshold, chain, low, path, d);
      EndIsStored(records, last, commitRound, threshold, chain, low, path, d);
      PathNonempty(records, last, commitRound, threshold, chain, low, path, d);
      PathGrows(records, last, commitRound, threshold, chain, low, path, d, records[p]);
    }
    assert ReachClosed(records, seeds, index, last, Floor(seeds), s);
  }

  lemma PathNonempty(records: Records, last: map<Author, Round>, commitRound: Round, threshold: nat,
                     chain: seq<Certificate>, low: Round, path: seq<Certificate>, d: Digest)
    requires FreshPath(records, last, commitRound, threshold, chain, low, path, d)
    ensures path != []
  {
  }

  lemma SeedPath(records: Records, last: map<Author, Round>, commitRound: Round, threshold: nat,
                 chain: seq<Certificate>, low: Round, c: Certificate)
    requires Stored(records, chain) && Seed(records, commitRound, threshold, chain, c) && Fresh(last, low, c)
    ensures c.Digest() in records
    ensures FreshPath(records, last, commitRound, threshold, chain, low, [c], c.Digest())
  {
  }

  lemma {:induction false} EndIsReached(records: Records, last: map<Author, Round>, commitRound: Round, threshold: nat,
                                        chain: seq<Certificate>, seeds: seq<Certificate>, low: Round, r: set<Digest>,
                                        path: seq<Certificate>, d: Digest)
    requires Stored(records, chain) && WellIndexed(records)
    requires forall c :: c in seeds <==> Seed(records, commitRound, threshold, chain, c)
    requires forall c :: Live(last, Floor(seeds), c) <==> Fresh(last, low, c)
    requires LeastReach(records, seeds, UncommittedBelow(records, last, commitRound), last, Floor(seeds), r)
    requires FreshPath(records, last, commitRound, threshold, chain, low, path, d)
    ensures d in r
    decreases |path|
  {
    hide Seed, Floor, Live;
    var n := |path| - 1;
    if n > 0 {
      var front, x, y := path[..n], path[n - 1], path[n];
      forall i | 1 <= i < n ensures LinkStep(records, commitRound, front[i - 1], front[i]) {
        assert LinkStep(records, commitRound, path[i - 1], path[i]);
      }
      assert LinkStep(records, commitRound, path[n - 1], path[n]);
      EndIsReached(records, last, commitRound, threshold, chain, seeds, low, r, front, x.header.id);
      EndIsStored(records, last, commitRound, threshold, chain, low, front, x.header.id);
    }
  }

  /** The worklist reaches exactly the ends of fresh paths. */
  lemma ReachMeans(records: Records, last: map<Author, Round>, commitRound: Round, threshold: nat,
                   chain: seq<Certificate>, r: set<Digest>, low: Round, d: Digest)
    requires chain != [] && Stored(records, chain) && WellIndexed(records)
    requires WaveReach(records, last, commitRound, threshold, chain, r)
    requires LowestSeed(records, commitRound, threshold, chain, low)
    ensures d in r <==>
            d in records && exists path :: FreshPath(records, last, commitRound, threshold, chain, low, path, d)
  {
    hide Anchored, FreshPath, LowestSeed, LeastReach;
    var index := UncommittedBelow(records, last, commitRound);
    var seeds :| FrontierOf(records, commitRound, threshold, chain, seeds)
                 && LeastReach(records, seeds, index, last, Floor(seeds), r);
    FloorOfSeeds(records, commitRound, threshold, chain, seeds, low);
    EndsAreClosed(records, last, commitRound, threshold, chain, seeds, low, r);
    if path :| d in records && FreshPath(records, last, commitRound, threshold, chain, low, path, d) {
      EndIsReached(records, last, commitRound, threshold, chain, seeds, low, r, path, d);
    }
  }

  /** The anchored records just below the boundary. */
  method AnchoredFrontier(records: Records, commitRound: Round, threshold: nat, anchored: map<Digest, set<Author>>)
    returns (cs: seq<Certificate>)
    requires WellIndexed(records)
    ensures forall c :: c in cs <==>
              c.Digest() in records && records[c.Digest()] == c && c.Round() + 1 == commitRound
              && c.Digest() in anchored && |anchored[c.Digest()]| >= threshold
  {
    cs := [];
    var rest := records.Keys;
    while rest != {}
      invariant rest <= records.Keys
      invariant forall c :: c in cs <==>
        c.Digest() in records && c.Digest() !in rest && records[c.Digest()] == c && c.Round() + 1 == commitRound
        && c.Digest() in anchored && |anchored[c.Digest()]| >= threshold
      decreases rest
    {
      var d := Least(rest);
      rest := rest - {d};
      if records[d].Round() + 1 == commitRound && d in anchored && |anchored[d]| >= threshold {
        cs := cs + [records[d]];
      }
    }
  }

  /** The records of a wave, from the counted anchors and the reached history. */
  function WaveSet(records: Records, last: map<Author, Round>, commitRound: Round, threshold: nat,
                   anchored: map<Digest, set<Author>>, reachable: set<Digest>): set<Digest> {
    set d | d in records && records[d].Round() < commitRound && !Stale(last, records[d])
            && (exists k :: k in records && ExposedBy(records[k], last, commitRound, k in reachable, d))
            && records[d].votes != []
            && (if records[d].Round() + 1 == commitRound then d in anchored && |anchored[d]| >= threshold
                else d in reachable)
  }

  lemma WaveSetExact(records: Records, last: map<Author, Round>, commitRound: Round, threshold: nat,
                     anchored: map<Digest, set<Author>>, reachable: set<Digest>)
    requires forall d :: d in anchored <==> AnchorAuthors(records, commitRound, d) != {}
    requires forall d :: d in anchored ==> anchored[d] == AnchorAuthors(records, commitRound, d)
    ensures forall d :: d in WaveSet(records, last, commitRound, threshold, anchored, reachable) <==>
              InWave(records, last, commitRound, threshold, reachable, d)
  {
    hide AnchorAuthors, ExposedBy, Stale;
  }

  lemma FrontierExact(records: Records, commitRound: Round, threshold: nat, anchored: map<Digest, set<Author>>,
                      chain: seq<Certificate>, frontier: seq<Certificate>)
    requires forall d :: d in anchored <==> AnchorAuthors(records, commitRound, d) != {}
    requires forall d :: d in anchored ==> anchored[d] == AnchorAuthors(records, commitRound, d)
    requires forall c :: c in frontier <==>
               c.Digest() in records && records[c.Digest()] == c && c.Round() + 1 == commitRound
               && c.Digest() in anchored && |anchored[c.Digest()]| >= threshold
    ensures FrontierOf(records, commitRound, threshold, chain, chain + frontier)
  {
    hide AnchorAuthors;
  }

  method CollectWave(records: Records, last: map<Author, Round>, commitRound: Round, threshold: nat,
                     chain: seq<Certificate>)
    returns (r: set<Digest>, output: seq<Certificate>)
    requires WellIndexed(records) && Stored(records, chain) && commitRound >= 4
    ensures WaveReach(records, last, commitRound, threshold, chain, r)
    ensures WaveOutput(records, last, commitRound, threshold, r, output)
  {
    hide LeastReach, AnchorAuthors, Floor, ByRoundAndDigest, WellIndexed, FrontierOf, InWave;
    var anchored := CountAnchors(records, commitRound);
    var frontier := AnchoredFrontier(records, commitRound, threshold, anchored);
    var seeds := chain + frontier;
    var index := UncommittedBelow(records, last, commitRound);
    SeedsStored(records, last, commitRound, chain, frontier);
    r := CausalReachability(records, seeds, index, last);
    FrontierExact(records, commitRound, threshold, anchored, chain, frontier);
    var wave := WaveSet(records, last, commitRound, threshold, anchored, r);
    WaveSetExact(records, last, commitRound, threshold, anchored, r);
    ArrangedSound(records, wave);
    output := Arranged(records, wave);
  }

  lemma SeedsStored(records: Records, last: map<Author, Round>, commitRound: Round, chain: seq<Certificate>,
                    frontier: seq<Certificate>)
    requires WellIndexed(records) && Stored(records, chain) && Stored(records, frontier)
    ensures Stored(records, chain + frontier)
    ensures WellIndexed(UncommittedBelow(records, last, commitRound))
  {
  }
}
