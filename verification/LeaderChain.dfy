/** Narwhal and Bullshark elect a leader in every even round.  A leader with validity-threshold
    support in the next round is committed, together with the earlier leaders met by a walk
    back along parent links.  This file proves that the walks of all nodes follow one chain. */
module LeaderChain {
  import opened Quorums
  import opened ConsensusState
  import opened Messages

  /** Leaders by round, common to all nodes. */
  type Schedule = Round -> Author

  // ---------------------------------------------------------------- the certified graph

  ghost function ParentAuthors(u: set<Header>, h: Header): set<Author> {
    set k | k in u && k.id in h.parents :: k.author
  }

  /** All certified headers: one per identifier and one per (author, round); above genesis the
      parents are certified headers of the previous round, from a quorum of authors. */
  ghost predicate Certified(c: Committee, u: set<Header>) {
    && (forall h, k :: h in u && k in u && h.id == k.id ==> h == k)
    && (forall h, k :: h in u && k in u && h.author == k.author && h.round == k.round ==> h == k)
    && (forall h, k :: h in u && k in u && k.id in h.parents ==> k.round + 1 == h.round)
    && (forall h :: h in u && h.round > 0 ==> c.Weight(ParentAuthors(u, h)) >= c.QuorumThreshold())
    && (forall h :: h in u && h.round == 0 ==> h.parents == {})
  }

  /** A header passed the parent checks: its parents are the certificates listed, all of the
      previous round, from a quorum of authors. */
  ghost predicate ParentsChecked(c: Committee, cs: set<Certificate>, h: Header, parents: seq<Certificate>) {
    && (forall p :: p in parents ==> p in cs && p.Digest() in h.parents && p.Round() + 1 == h.round)
    && (forall d :: d in h.parents ==> exists p :: p in parents && p.Digest() == d)
    && c.Weight(Origins(parents)) >= c.QuorumThreshold()
  }

  /** A certificate as the primary accepts it: genesis, or a quorum of signed votes for a header
      that passed the parent checks. */
  ghost predicate Accepted(c: Committee, signed: set<Vote>, cs: set<Certificate>, x: Certificate) {
    if x.Round() == 0 then x.header.parents == {}
    else
      && QuorumFor(c, x.votes, x.Digest(), x.Round(), x.Origin(), false)
      && (forall v :: v in x.votes ==> v in signed)
      && (exists parents :: ParentsChecked(c, cs, x.header, parents))
  }

  /** What the primary checks makes the certified headers a certified graph: no equivocation
      survives certification. */
  lemma AcceptedIsCertified(c: Committee, signed: set<Vote>, byz: set<Author>, cs: set<Certificate>)
    requires OneVotePerSlot(c, signed, byz)
    requires forall x :: x in cs ==> Accepted(c, signed, cs, x)
    requires forall x, y :: x in cs && y in cs && x.Digest() == y.Digest() ==> x.header == y.header
    requires forall x, y :: x in cs && y in cs && x.Round() == y.Round() == 0 && x.Origin() == y.Origin() ==>
               x.header == y.header
    ensures Certified(c, set x | x in cs :: x.header)
  {
    hide QuorumFor, ParentsChecked, OneVotePerSlot;
    var u := set x | x in cs :: x.header;
    forall x | x in cs && x.Round() == 0 ensures x.header.parents == {} { assert Accepted(c, signed, cs, x); }
    forall x, y | x in cs && y in cs && x.Origin() == y.Origin() && x.Round() == y.Round()
      ensures x.header == y.header
    {
      AcceptedUnique(c, signed, byz, cs, x, y);
    }
    forall x | x in cs && x.Round() > 0
      ensures c.Weight(ParentAuthors(u, x.header)) >= c.QuorumThreshold()
      ensures forall k :: k in u && k.id in x.header.parents ==> k.round + 1 == x.Round()
    {
      AcceptedParents(c, signed, cs, x);
    }
  }

  lemma AcceptedUnique(c: Committee, signed: set<Vote>, byz: set<Author>, cs: set<Certificate>, x: Certificate,
                       y: Certificate)
    requires OneVotePerSlot(c, signed, byz) && x in cs && y in cs && Accepted(c, signed, cs, x)
    requires Accepted(c, signed, cs, y)
    requires x.Origin() == y.Origin() && x.Round() == y.Round()
    ensures x.Round() > 0 ==> x.Digest() == y.Digest()
  {
    hide OneVotePerSlot, QuorumFor, ParentsChecked;
    if x.Round() > 0 {
      QuorumsCertifyOne(c, signed, byz, x.votes, y.votes, x.Digest(), y.Digest(), x.Round(), x.Origin(), false);
    }
  }

  lemma AcceptedParents(c: Committee, signed: set<Vote>, cs: set<Certificate>, x: Certificate)
    requires x in cs && x.Round() > 0 && Accepted(c, signed, cs, x)
    requires forall x, y :: x in cs && y in cs && x.Digest() == y.Digest() ==> x.header == y.header
    ensures var u := set x | x in cs :: x.header;
            && c.Weight(ParentAuthors(u, x.header)) >= c.QuorumThreshold()
            && forall k :: k in u && k.id in x.header.parents ==> k.round + 1 == x.Round()
  {
    hide QuorumFor;
    var u := set x | x in cs :: x.header;
    var parents: seq<Certificate> :| ParentsChecked(c, cs, x.header, parents);
    CheckedAuthors(c, cs, x.header, parents);
    WeightMonotone(c, Origins(parents), ParentAuthors(u, x.header));
    forall k | k in u && k.id in x.header.parents ensures k.round + 1 == x.Round() {
      var p :| p in parents && p.Digest() == k.id;
      var y :| y in cs && y.header == k;
      assert p.header == y.header;
    }
  }

  lemma CheckedAuthors(c: Committee, cs: set<Certificate>, h: Header, parents: seq<Certificate>)
    requires ParentsChecked(c, cs, h, parents)
    ensures Origins(parents) <= ParentAuthors(set x | x in cs :: x.header, h)
  {
    forall a | a in Origins(parents) ensures a in ParentAuthors(set x | x in cs :: x.header, h) {
      var p :| p in parents && p.Origin() == a;
      assert p.header in (set x | x in cs :: x.header);
    }
  }

  /** The headers of round `r` on a path from `x`. */
  ghost function Layer(u: set<Header>, x: Header, r: Round): set<Header>
    decreases x.round - r
  {
    if r >= x.round then {x}
    else Below(u, Layer(u, x, r + 1), r)
  }

  ghost function Below(u: set<Header>, above: set<Header>, r: Round): set<Header> {
    set h | h in u && h.round == r && ChildIn(above, h)
  }

  ghost predicate ChildIn(above: set<Header>, h: Header) {
    exists p :: p in above && h.id in p.parents
  }

  lemma {:induction false} LayerInside(u: set<Header>, x: Header, r: Round)
    requires x in u && r <= x.round
    ensures Layer(u, x, r) <= u && forall h :: h in Layer(u, x, r) ==> h.round == r
    decreases x.round - r
  {
    if r < x.round { LayerInside(u, x, r + 1); }
  }

  lemma ParentWitness(c: Committee, u: set<Header>, h: Header, a: Author) returns (k: Header)
    requires Certified(c, u) && h in u && a in ParentAuthors(u, h)
    ensures k in u && k.id in h.parents && k.author == a && k.round + 1 == h.round
  {
    k :| k in u && k.id in h.parents && k.author == a;
  }

  /** Every header reaches some header of each lower round. */
  lemma {:induction false} LayerNonempty(c: Committee, u: set<Header>, x: Header, r: Round)
    requires Certified(c, u) && x in u && r <= x.round
    ensures Layer(u, x, r) != {}
    decreases x.round - r
  {
    hide Certified;
    if r < x.round {
      LayerNonempty(c, u, x, r + 1);
      LayerInside(u, x, r + 1);
      var p :| p in Layer(u, x, r + 1);
      QuorumAbove(c, u, p);
      var a := QuorumMeetsValidity(c, ParentAuthors(u, p), ParentAuthors(u, p)) by {
        assert c.QuorumThreshold() >= c.ValidityThreshold();
      }
      var k := ParentWitness(c, u, p, a);
      LayerDown(u, x, r, p, k);
    }
  }

  lemma LayerDown(u: set<Header>, x: Header, r: Round, p: Header, k: Header)
    requires r < x.round && p in Layer(u, x, r + 1) && k in u && k.round == r && k.id in p.parents
    ensures k in Layer(u, x, r)
  {
    assert ChildIn(Layer(u, x, r + 1), k);
  }

  /** Headers of the next round that reference `l`. */
  ghost function Supporters(s: set<Header>, l: Header): set<Author> {
    set h | h in s && h.round == l.round + 1 && l.id in h.parents :: h.author
  }

  ghost predicate Supported(c: Committee, s: set<Header>, l: Header) {
    c.Weight(Supporters(s, l)) >= c.ValidityThreshold()
  }

  /** A supported leader is on a path from every header at least two rounds above it. */
  lemma SupportReaches(c: Committee, u: set<Header>, l: Header, x: Header)
    requires Certified(c, u) && l in u && x in u && Supported(c, u, l) && x.round >= l.round + 2
    ensures l in Layer(u, x, l.round)
  {
    hide Layer, Certified;
    LayerNonempty(c, u, x, l.round + 2);
    LayerInside(u, x, l.round + 2);
    var y :| y in Layer(u, x, l.round + 2);
    QuorumAbove(c, u, y);
    var a := QuorumMeetsValidity(c, ParentAuthors(u, y), Supporters(u, l));
    var k := ParentWitness(c, u, y, a);
    var h :| h in u && h.round == l.round + 1 && l.id in h.parents && h.author == a;
    OnePerSlot(c, u, h, k);
    LayerDown(u, x, l.round + 1, y, k);
    LayerDown(u, x, l.round, k, l);
  }

  lemma QuorumAbove(c: Committee, u: set<Header>, h: Header)
    requires Certified(c, u) && h in u && h.round > 0
    ensures c.Weight(ParentAuthors(u, h)) >= c.QuorumThreshold()
  {
  }

  lemma OnePerSlot(c: Committee, u: set<Header>, h: Header, k: Header)
    requires Certified(c, u) && h in u && k in u && h.author == k.author && h.round == k.round
    ensures h == k
  {
  }

  /** A path of parent links through the certified headers. */
  ghost predicate HeaderPath(u: set<Header>, path: seq<Header>, x: Header, h: Header) {
    && path != [] && path[0] == x && path[|path| - 1] == h
    && (forall i :: 1 <= i < |path| ==> ParentLink(u, path[i - 1], path[i]))
  }

  ghost predicate ParentLink(u: set<Header>, p: Header, h: Header) {
    h in u && h.id in p.parents && h.round + 1 == p.round
  }

  lemma {:induction false} LayerPath(u: set<Header>, x: Header, h: Header) returns (path: seq<Header>)
    requires h.round <= x.round && h in Layer(u, x, h.round)
    ensures HeaderPath(u, path, x, h)
    decreases x.round - h.round
  {
    path := [x];
    if h.round < x.round {
      var p :| p in Layer(u, x, h.round + 1) && h.id in p.parents;
      LayerRound(u, x, h.round + 1, p);
      var front := LayerPath(u, x, p);
      path := front + [h];
      forall i | 1 <= i < |path| ensures ParentLink(u, path[i - 1], path[i]) {
        if i < |front| { assert path[i - 1] == front[i - 1] && path[i] == front[i]; }
      }
    }
  }

  lemma LayerRound(u: set<Header>, x: Header, r: Round, p: Header)
    requires r <= x.round && p in Layer(u, x, r)
    ensures p.round == r
  {
  }

  lemma {:induction false} PathLayer(u: set<Header>, path: seq<Header>, x: Header, h: Header)
    requires HeaderPath(u, path, x, h)
    ensures h.round <= x.round && h in Layer(u, x, h.round)
    decreases |path|
  {
    if |path| > 1 {
      var n := |path| - 1;
      var front := path[..n];
      forall i | 1 <= i < n ensures ParentLink(u, front[i - 1], front[i]) {
        assert ParentLink(u, path[i - 1], path[i]);
      }
      PathLayer(u, front, x, path[n - 1]);
      assert ParentLink(u, path[n - 1], path[n]);
      assert ChildIn(Layer(u, x, h.round + 1), h);
    }
  }

  /** A header is in the layer of another exactly when a path of parent links leads to it. */
  lemma LayerMeans(u: set<Header>, x: Header, h: Header)
    requires h.round <= x.round
    ensures h in Layer(u, x, h.round) <==> OnPath(u, x, h)
  {
    hide Layer, HeaderPath;
    if h in Layer(u, x, h.round) { var path := LayerPath(u, x, h); }
    if path :| HeaderPath(u, path, x, h) { PathLayer(u, path, x, h); }
  }

  // ---------------------------------------------------------------- the walk

  ghost predicate Even(r: int) { r % 2 == 0 }

  ghost predicate LeaderOn(u: set<Header>, leaderOf: Schedule, x: Header, r: Round, h: Header) {
    h in Layer(u, x, r) && h.author == leaderOf(r)
  }

  /** The leaders committed by a walk back from `current`, newest first, over rounds
      `r`, `r - 2`, ... above `floor`. */
  ghost function Walk(u: set<Header>, leaderOf: Schedule, current: Header, r: int, floor: Round): seq<Header>
    decreases r
  {
    if r <= floor then []
    else if exists h :: LeaderOn(u, leaderOf, current, r, h) then
      var h :| LeaderOn(u, leaderOf, current, r, h);
      [h] + Walk(u, leaderOf, h, r - 2, floor)
    else Walk(u, leaderOf, current, r - 2, floor)
  }

  /** There is at most one leader header per round. */
  lemma LeaderUnique(c: Committee, u: set<Header>, leaderOf: Schedule, x: Header, y: Header, r: Round, h: Header,
                     k: Header)
    requires Certified(c, u) && x in u && y in u && r <= x.round && r <= y.round
    requires LeaderOn(u, leaderOf, x, r, h) && LeaderOn(u, leaderOf, y, r, k)
    ensures h == k && h in u && h.round == r
  {
    LayerInside(u, x, r);
    LayerInside(u, y, r);
  }

  /** One step of the walk, by the leader that is met. */
  lemma WalkMeets(c: Committee, u: set<Header>, leaderOf: Schedule, x: Header, r: Round, floor: Round, h: Header)
    requires Certified(c, u) && x in u && floor < r <= x.round && LeaderOn(u, leaderOf, x, r, h)
    ensures Walk(u, leaderOf, x, r, floor) == [h] + Walk(u, leaderOf, h, r - 2, floor)
  {
    var k :| LeaderOn(u, leaderOf, x, r, k)
        && Walk(u, leaderOf, x, r, floor) == [k] + Walk(u, leaderOf, k, r - 2, floor);
    LeaderUnique(c, u, leaderOf, x, x, r, h, k);
  }

  /** A scheduled leader header in a round that the walk visits: `r`, `r - 2`, ... above `floor`. */
  ghost predicate Visited(u: set<Header>, leaderOf: Schedule, r: int, floor: Round, h: Header) {
    h in u && h.author == leaderOf(h.round) && floor < h.round <= r && (r - h.round) % 2 == 0
  }

  /** Each leader of the walk is visited, below the one before, and on a path from it. */
  ghost predicate Descends(u: set<Header>, leaderOf: Schedule, x: Header, r: int, floor: Round, hs: seq<Header>) {
    forall i :: 0 <= i < |hs| ==>
      Visited(u, leaderOf, r, floor, hs[i]) && hs[i].round < Above(x, hs, i).round && OnPath(u, Above(x, hs, i), hs[i])
  }

  /** The leader listed before position `i`. */
  ghost function Above(x: Header, hs: seq<Header>, i: nat): Header
    requires i <= |hs|
  {
    if i == 0 then x else hs[i - 1]
  }

  ghost predicate OnPath(u: set<Header>, x: Header, h: Header) { exists path :: HeaderPath(u, path, x, h) }

  /** A visited leader that is left out lies below one of the walk, above the next, and off its paths. */
  ghost predicate LeftOut(u: set<Header>, x: Header, hs: seq<Header>, h: Header) {
    exists i :: 0 <= i <= |hs| && OffPath(u, x, hs, i, h)
  }

  ghost predicate OffPath(u: set<Header>, x: Header, hs: seq<Header>, i: nat, h: Header)
    requires i <= |hs|
  {
    (i < |hs| ==> hs[i].round < h.round) && h.round < Above(x, hs, i).round && !OnPath(u, Above(x, hs, i), h)
  }

  /** The walk, on headers and paths: it lists exactly the visited leaders that lie on a path from the
      leader listed before them. */
  lemma {:induction false} WalkMeans(c: Committee, u: set<Header>, leaderOf: Schedule, x: Header, r: int, floor: Round)
    requires Certified(c, u) && x in u && r < x.round
    ensures var hs := Walk(u, leaderOf, x, r, floor);
            && Descends(u, leaderOf, x, r, floor, hs)
            && forall h :: Visited(u, leaderOf, r, floor, h) && h !in hs ==> LeftOut(u, x, hs, h)
    decreases r
  {
    hide Certified, Layer, HeaderPath;
    var hs := Walk(u, leaderOf, x, r, floor);
    if r > floor {
      if exists h :: LeaderOn(u, leaderOf, x, r, h) {
        var h0 :| LeaderOn(u, leaderOf, x, r, h0);
        LeaderUnique(c, u, leaderOf, x, x, r, h0, h0);
        WalkMeets(c, u, leaderOf, x, r, floor, h0);
        WalkMeans(c, u, leaderOf, h0, r - 2, floor);
        WalkMet(c, u, leaderOf, x, r, floor, h0, Walk(u, leaderOf, h0, r - 2, floor));
      } else {
        WalkMeans(c, u, leaderOf, x, r - 2, floor);
        WalkMissed(u, leaderOf, x, r, floor, hs);
      }
    }
  }

  lemma VisitedHere(u: set<Header>, leaderOf: Schedule, r: Round, floor: Round, h: Header)
    requires h in u && h.round == r && h.author == leaderOf(r) && floor < r
    ensures Visited(u, leaderOf, r, floor, h)
  {
  }

  lemma VisitedStep(u: set<Header>, leaderOf: Schedule, r: int, floor: Round, h: Header)
    ensures Visited(u, leaderOf, r - 2, floor, h) ==> Visited(u, leaderOf, r, floor, h)
    ensures Visited(u, leaderOf, r, floor, h) && h.round != r ==> Visited(u, leaderOf, r - 2, floor, h)
  {
  }

  lemma WalkMet(c: Committee, u: set<Header>, leaderOf: Schedule, x: Header, r: Round, floor: Round, h0: Header,
                rest: seq<Header>)
    requires Certified(c, u) && x in u && floor < r < x.round && LeaderOn(u, leaderOf, x, r, h0)
    requires h0 in u && h0.round == r && Descends(u, leaderOf, h0, r - 2, floor, rest)
    requires forall h :: Visited(u, leaderOf, r - 2, floor, h) && h !in rest ==> LeftOut(u, h0, rest, h)
    ensures var hs := [h0] + rest;
            && Descends(u, leaderOf, x, r, floor, hs)
            && forall h :: Visited(u, leaderOf, r, floor, h) && h !in hs ==> LeftOut(u, x, hs, h)
  {
    hide Certified, Layer, OnPath, LeftOut, Descends, Visited;
    var hs := [h0] + rest;
    DescendsMet(u, leaderOf, x, r, floor, h0, rest);
    forall h | Visited(u, leaderOf, r, floor, h) && h !in hs ensures LeftOut(u, x, hs, h) {
      VisitedStep(u, leaderOf, r, floor, h);
      NotTheMet(c, u, leaderOf, r, floor, h0, rest, h);
      LeftOutMet(u, x, h0, rest, h);
    }
  }

  lemma NotTheMet(c: Committee, u: set<Header>, leaderOf: Schedule, r: Round, floor: Round, h0: Header,
                  rest: seq<Header>, h: Header)
    requires Certified(c, u) && h0 in u && h0.round == r && h0.author == leaderOf(r)
    requires Visited(u, leaderOf, r, floor, h) && h !in [h0] + rest
    ensures h.round != r && h !in rest
  {
    hide Certified;
    assert h0 in [h0] + rest;
    if h.round == r { OnePerSlot(c, u, h, h0); }
  }

  lemma LeftOutMet(u: set<Header>, x: Header, h0: Header, rest: seq<Header>, h: Header)
    requires LeftOut(u, h0, rest, h)
    ensures LeftOut(u, x, [h0] + rest, h)
  {
    hide OnPath;
    var hs := [h0] + rest;
    var i :| 0 <= i <= |rest| && OffPath(u, h0, rest, i, h);
    assert Above(x, hs, i + 1) == Above(h0, rest, i);
    assert OffPath(u, x, hs, i + 1, h);
  }

  lemma DescendsMet(u: set<Header>, leaderOf: Schedule, x: Header, r: Round, floor: Round, h0: Header,
                    rest: seq<Header>)
    requires floor < r < x.round && LeaderOn(u, leaderOf, x, r, h0)
    requires h0 in u && h0.round == r && Descends(u, leaderOf, h0, r - 2, floor, rest)
    ensures Descends(u, leaderOf, x, r, floor, [h0] + rest)
  {
    hide Layer, OnPath, Visited;
    var hs := [h0] + rest;
    LayerMeans(u, x, h0);
    VisitedHere(u, leaderOf, r, floor, h0);
    forall i | 0 <= i < |hs|
      ensures Visited(u, leaderOf, r, floor, hs[i])
      ensures hs[i].round < Above(x, hs, i).round && OnPath(u, Above(x, hs, i), hs[i])
    {
      if i > 0 {
        assert hs[i] == rest[i - 1] && Above(x, hs, i) == Above(h0, rest, i - 1);
        VisitedStep(u, leaderOf, r, floor, hs[i]);
      }
    }
  }

  lemma WalkMissed(u: set<Header>, leaderOf: Schedule, x: Header, r: Round, floor: Round, hs: seq<Header>)
    requires r < x.round && !exists h :: LeaderOn(u, leaderOf, x, r, h)
    requires Descends(u, leaderOf, x, r - 2, floor, hs)
    requires forall h :: Visited(u, leaderOf, r - 2, floor, h) && h !in hs ==> LeftOut(u, x, hs, h)
    ensures Descends(u, leaderOf, x, r, floor, hs)
    ensures forall h :: Visited(u, leaderOf, r, floor, h) && h !in hs ==> LeftOut(u, x, hs, h)
  {
    hide Layer, HeaderPath;
    forall i | 0 <= i < |hs| ensures Visited(u, leaderOf, r, floor, hs[i]) {
      assert Visited(u, leaderOf, r - 2, floor, hs[i]);
    }
    forall h | Visited(u, leaderOf, r, floor, h) && h !in hs ensures LeftOut(u, x, hs, h) {
      if h.round == r {
        LayerMeans(u, x, h);
        assert !LeaderOn(u, leaderOf, x, r, h);
        assert OffPath(u, x, hs, 0, h) by { if hs != [] { assert Visited(u, leaderOf, r - 2, floor, hs[0]); } }
      }
    }
  }

  lemma SupportedOn(c: Committee, u: set<Header>, leaderOf: Schedule, l: Header, x: Header)
    requires Certified(c, u) && l in u && x in u && Supported(c, u, l) && x.round >= l.round + 2
    requires l.author == leaderOf(l.round)
    ensures LeaderOn(u, leaderOf, x, l.round, l)
  {
    SupportReaches(c, u, l, x);
  }

  /** A walk over a supported leader splits there: below it, it is that leader's own walk. */
  lemma {:induction false} WalkSplits(c: Committee, u: set<Header>, leaderOf: Schedule, x: Header, r: Round, l: Header)
    requires Certified(c, u) && x in u && l in u && l.author == leaderOf(l.round) && Supported(c, u, l)
    requires 0 < l.round <= r && Even(r - l.round) && r + 2 <= x.round
    ensures Walk(u, leaderOf, x, r, 0) ==
            Walk(u, leaderOf, x, r, l.round) + [l] + Walk(u, leaderOf, l, l.round - 2, 0)
    decreases r
  {
    hide Certified, Supported, Layer, LeaderOn;
    if r == l.round {
      SupportedOn(c, u, leaderOf, l, x);
      WalkMeets(c, u, leaderOf, x, r, 0, l);
      assert [] + [l] == [l];
    } else if exists h :: LeaderOn(u, leaderOf, x, r, h) {
      var h :| LeaderOn(u, leaderOf, x, r, h);
      LeaderUnique(c, u, leaderOf, x, x, r, h, h);
      WalkMeets(c, u, leaderOf, x, r, 0, h);
      WalkMeets(c, u, leaderOf, x, r, l.round, h);
      WalkSplits(c, u, leaderOf, h, r - 2, l);
      assert [h] + (Walk(u, leaderOf, h, r - 2, l.round) + [l] + Walk(u, leaderOf, l, l.round - 2, 0))
          == ([h] + Walk(u, leaderOf, h, r - 2, l.round)) + [l] + Walk(u, leaderOf, l, l.round - 2, 0);
    } else {
      WalkSplits(c, u, leaderOf, x, r - 2, l);
    }
  }

  // ---------------------------------------------------------------- the committed chain

  function Reversed(xs: seq<Header>): seq<Header> {
    if xs == [] then [] else Reversed(xs[1..]) + [xs[0]]
  }

  lemma {:induction false} ReversedConcat(xs: seq<Header>, ys: seq<Header>)
    ensures Reversed(xs + ys) == Reversed(ys) + Reversed(xs)
  {
    if xs == [] {
      assert xs + ys == ys && Reversed(ys) + [] == Reversed(ys);
    } else {
      assert (xs + ys)[1..] == xs[1..] + ys;
      ReversedConcat(xs[1..], ys);
    }
  }

  /** What a node commits, oldest first, when it commits `l` with everything up to `floor` done. */
  ghost function Segment(u: set<Header>, leaderOf: Schedule, l: Header, floor: Round): seq<Header> {
    Reversed([l] + Walk(u, leaderOf, l, l.round - 2, floor))
  }

  /** The whole chain of leaders up to `l`. */
  ghost function Chain(u: set<Header>, leaderOf: Schedule, l: Header): seq<Header> {
    Segment(u, leaderOf, l, 0)
  }

  /** Committing a later leader extends the chain of an earlier supported one. */
  lemma ChainExtends(c: Committee, u: set<Header>, leaderOf: Schedule, l: Header, x: Header)
    requires Certified(c, u) && l in u && x in u && l.author == leaderOf(l.round) && Supported(c, u, l)
    requires 0 < l.round < x.round && Even(l.round) && Even(x.round)
    ensures Chain(u, leaderOf, x) == Chain(u, leaderOf, l) + Segment(u, leaderOf, x, l.round)
  {
    hide Certified, Supported, Walk, Reversed, Even;
    EvenGap(l.round, x.round);
    WalkSplits(c, u, leaderOf, x, x.round - 2, l);
    ReversedSplit(x, Walk(u, leaderOf, x, x.round - 2, l.round), l, Walk(u, leaderOf, l, l.round - 2, 0));
  }

  lemma EvenGap(a: Round, b: Round)
    requires Even(a) && Even(b) && a < b
    ensures a + 2 <= b && Even(b - 2 - a)
  {
  }

  lemma ReversedSplit(x: Header, upper: seq<Header>, l: Header, lower: seq<Header>)
    ensures Reversed([x] + (upper + [l] + lower)) == Reversed([l] + lower) + Reversed([x] + upper)
  {
    hide Reversed;
    assert [x] + (upper + [l] + lower) == ([x] + upper) + ([l] + lower);
    ReversedConcat([x] + upper, [l] + lower);
  }

  /** A commit point: nothing committed yet, or a leader that was supported when committed. */
  ghost predicate CommitPoint(c: Committee, u: set<Header>, leaderOf: Schedule, last: Option<Header>) {
    last.Some? ==>
      var l := last.value;
      l in u && l.round > 0 && Even(l.round) && l.author == leaderOf(l.round) && Supported(c, u, l)
  }

  ghost function CommittedChain(u: set<Header>, leaderOf: Schedule, last: Option<Header>): seq<Header> {
    match last
    case None => []
    case Some(l) => Chain(u, leaderOf, l)
  }

  /** Safety: the leader sequences of any two nodes are prefixes of one another, although each
      walk stopped at its own last committed round. */
  lemma LeaderSequencesAgree(c: Committee, u: set<Header>, leaderOf: Schedule, a: Option<Header>, b: Option<Header>)
    requires Certified(c, u) && CommitPoint(c, u, leaderOf, a) && CommitPoint(c, u, leaderOf, b)
    ensures var x, y := CommittedChain(u, leaderOf, a), CommittedChain(u, leaderOf, b);
            x <= y || y <= x
  {
    if a.Some? && b.Some? {
      if a.value.round < b.value.round {
        ChainExtends(c, u, leaderOf, a.value, b.value);
      } else if b.value.round < a.value.round {
        ChainExtends(c, u, leaderOf, b.value, a.value);
      }
    }
  }
}
