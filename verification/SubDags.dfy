/** Flattening the sub-dag of a Narwhal or Bullshark leader: a depth-first walk over live parents,
    a filter and a stable sort by round. */
module SubDags {
  import opened Quorums
  import opened ConsensusState

  // ---------------------------------------------------------------- flattening a sub-dag

  ghost predicate InDag(dag: Dag, c: Certificate) { Holds(dag, c.Round(), c.Origin(), c) }

  /** `y` is a stored parent of `x` that is not skipped.  The comparison with the last committed
      round is an equality, as in the source. */
  ghost predicate LiveParent(dag: Dag, last: map<Author, Round>, x: Certificate, y: Certificate) {
    && InDag(dag, y) && y.Round() + 1 == x.Round() && y.Digest() in x.header.parents
    && !(y.Origin() in last && last[y.Origin()] == y.Round())
  }

  ghost predicate OnePerDigest(dag: Dag) {
    forall y, z :: InDag(dag, y) && InDag(dag, z) && y.Digest() == z.Digest() ==> y == z
  }

  ghost function DagDigests(dag: Dag): set<Digest> {
    set r, a | r in dag && a in dag[r] :: dag[r][a].Digest()
  }

  lemma StoredDigest(dag: Dag, c: Certificate)
    requires InDag(dag, c)
    ensures c.Digest() in DagDigests(dag)
  {
  }

  /** The stored certificate of one round with the given digest, if any. */
  method FindParent(dag: Dag, r: Round, parent: Digest) returns (c: Option<Certificate>)
    requires WellKeyed(dag)
    ensures c.Some? ==> InDag(dag, c.value) && c.value.Round() == r && c.value.Digest() == parent
    ensures c == None ==> forall y :: InDag(dag, y) && y.Round() == r ==> y.Digest() != parent
  {
    if r in dag {
      var rest := dag[r].Keys;
      while rest != {}
        invariant rest <= dag[r].Keys
        invariant forall a :: a in dag[r] && a !in rest ==> dag[r][a].Digest() != parent
        decreases rest
      {
        var a := Least(rest);
        if dag[r][a].Digest() == parent {
          return Some(dag[r][a]);
        }
        rest := rest - {a};
      }
    }
    return None;
  }

  /** Push the live parents of `x` that were not pushed before. */
  method PushParents(dag: Dag, last: map<Author, Round>, x: Certificate, buffer: seq<Certificate>, seen: set<Digest>)
    returns (buffer': seq<Certificate>, seen': set<Digest>)
    requires WellKeyed(dag) && OnePerDigest(dag) && (x.Round() == 0 ==> x.header.parents == {})
    ensures buffer <= buffer' && seen <= seen'
    ensures forall i :: |buffer| <= i < |buffer'| ==>
              LiveParent(dag, last, x, buffer'[i]) && buffer'[i].Digest() in seen' && buffer'[i].Digest() !in seen
    ensures forall i, j :: |buffer| <= i < j < |buffer'| ==> buffer'[i].Digest() < buffer'[j].Digest()
    ensures buffer' != buffer ==> DagDigests(dag) - seen' < DagDigests(dag) - seen
    ensures forall y :: LiveParent(dag, last, x, y) ==> y.Digest() in seen'
    ensures seen' == seen + set c | c in buffer'[|buffer|..] :: c.Digest()
  {
    hide WellKeyed, DagDigests, Pushing, OnePerDigest;
    buffer', seen' := buffer, seen;
    var rest := x.header.parents;
    ghost var added: seq<Certificate> := [];
    PushStart(dag, last, x, seen);
    while rest != {}
      invariant rest <= x.header.parents && buffer' == buffer + added
      invariant Pushing(dag, last, x, seen, rest, added, seen')
      decreases rest
    {
      var parent := Least(rest);
      var found := FindParent(dag, x.Round() - 1, parent);
      if found.Some? && parent !in seen'
         && !(found.value.Origin() in last && last[found.value.Origin()] == found.value.Round()) {
        PushOne(dag, last, x, seen, rest, added, seen', found.value);
        buffer', added, seen' := buffer' + [found.value], added + [found.value], seen' + {parent};
      } else {
        PushNone(dag, last, x, seen, rest, added, seen', parent, found);
      }
      rest := rest - {parent};
    }
    PushDone(dag, last, x, seen, added, seen', buffer);
  }

  /** State of the push: the live parents outside `rest` that were not seen, ascending by digest. */
  ghost predicate Pushing(dag: Dag, last: map<Author, Round>, x: Certificate, seen: set<Digest>, rest: set<Digest>,
                          added: seq<Certificate>, seen': set<Digest>) {
    && (forall c :: c in added ==> LiveParent(dag, last, x, c) && c.Digest() !in seen)
    && (forall i, j :: 0 <= i < j < |added| ==> added[i].Digest() < added[j].Digest())
    && (forall c, d :: c in added && d in rest ==> c.Digest() < d)
    && (forall y :: LiveParent(dag, last, x, y) && y.Digest() !in rest ==> y.Digest() in seen')
    && seen' == seen + DigestsOf(added)
  }

  lemma PushStart(dag: Dag, last: map<Author, Round>, x: Certificate, seen: set<Digest>)
    ensures Pushing(dag, last, x, seen, x.header.parents, [], seen)
  {
  }

  lemma PushOne(dag: Dag, last: map<Author, Round>, x: Certificate, seen: set<Digest>, rest: set<Digest>,
                added: seq<Certificate>, seen': set<Digest>, c: Certificate)
    requires Pushing(dag, last, x, seen, rest, added, seen') && rest <= x.header.parents && rest != {}
    requires c.Digest() == Least(rest) && InDag(dag, c) && c.Round() + 1 == x.Round() && c.Digest() !in seen'
    requires !(c.Origin() in last && last[c.Origin()] == c.Round())
    ensures Pushing(dag, last, x, seen, rest - {c.Digest()}, added + [c], seen' + {c.Digest()})
  {
    DigestsConcat(added, [c]);
    assert DigestsOf([c]) == {c.Digest()};
    assert LiveParent(dag, last, x, c);
    var more := added + [c];
    forall i, j | 0 <= i < j < |more| ensures more[i].Digest() < more[j].Digest() {
      if j == |added| { assert added[i] in added; }
    }
  }

  lemma PushNone(dag: Dag, last: map<Author, Round>, x: Certificate, seen: set<Digest>, rest: set<Digest>,
                 added: seq<Certificate>, seen': set<Digest>, parent: Digest, found: Option<Certificate>)
    requires Pushing(dag, last, x, seen, rest, added, seen') && OnePerDigest(dag)
    requires found == None ==> forall y :: InDag(dag, y) && y.Round() + 1 == x.Round() ==> y.Digest() != parent
    requires found.Some? ==> InDag(dag, found.value) && found.value.Digest() == parent
    requires found.Some? ==>
               parent in seen' || (found.value.Origin() in last && last[found.value.Origin()] == found.value.Round())
    ensures Pushing(dag, last, x, seen, rest - {parent}, added, seen')
  {
  }

  lemma PushDone(dag: Dag, last: map<Author, Round>, x: Certificate, seen: set<Digest>, added: seq<Certificate>,
                 seen': set<Digest>, buffer: seq<Certificate>)
    requires Pushing(dag, last, x, seen, {}, added, seen')
    ensures var buffer' := buffer + added;
            && buffer'[|buffer|..] == added && seen <= seen'
            && (forall i :: |buffer| <= i < |buffer'| ==>
                  LiveParent(dag, last, x, buffer'[i]) && buffer'[i].Digest() in seen' && buffer'[i].Digest() !in seen)
            && (forall i, j :: |buffer| <= i < j < |buffer'| ==> buffer'[i].Digest() < buffer'[j].Digest())
            && (buffer' != buffer ==> DagDigests(dag) - seen' < DagDigests(dag) - seen)
            && (forall y :: LiveParent(dag, last, x, y) ==> y.Digest() in seen')
            && seen' == seen + set c | c in buffer'[|buffer|..] :: c.Digest()
  {
    hide LiveParent, DagDigests;
    var buffer' := buffer + added;
    forall i | |buffer| <= i < |buffer'| ensures buffer'[i] in added { assert buffer'[i] == added[i - |buffer|]; }
    if added != [] {
      assert added[0] in added;
      LiveStored(dag, last, x, added[0]);
      assert added[0].Digest() in DagDigests(dag) - seen && added[0].Digest() !in DagDigests(dag) - seen';
    }
  }

  lemma LiveStored(dag: Dag, last: map<Author, Round>, x: Certificate, y: Certificate)
    requires LiveParent(dag, last, x, y)
    ensures y.Digest() in DagDigests(dag)
  {
    StoredDigest(dag, y);
  }

  /** Parentless at round 0, and never the leader's digest again below it. */
  ghost predicate Grounded(dag: Dag, leader: Certificate) {
    && (leader.Round() == 0 ==> leader.header.parents == {})
    && (forall c :: InDag(dag, c) && c.Round() == 0 ==> c.header.parents == {})
    && (forall c :: InDag(dag, c) && c.Digest() == leader.Digest() ==> c.Round() == leader.Round())
  }

  ghost function DigestsOf(cs: seq<Certificate>): set<Digest> { set c | c in cs :: c.Digest() }

  /** `y` is reached from the leader over live parents. */
  ghost predicate Reached(dag: Dag, last: map<Author, Round>, leader: Certificate, y: Certificate)
    decreases leader.Round() - y.Round()
  {
    y == leader || (y.Round() < leader.Round() && exists x ::
        LiveParent(dag, last, x, y) && Reached(dag, last, leader, x))
  }

  /** A path of certificates, each stored one round below the one before, referenced by it, and not at its
      author's last committed round. */
  ghost predicate LivePath(dag: Dag, last: map<Author, Round>, path: seq<Certificate>, x: Certificate, y: Certificate) {
    && path != [] && path[0] == x && path[|path| - 1] == y
    && forall i :: 1 <= i < |path| ==> LiveStep(dag, last, path[i - 1], path[i])
  }

  ghost predicate LiveStep(dag: Dag, last: map<Author, Round>, p: Certificate, c: Certificate) {
    && c.header.round + 1 == p.header.round && c.header.id in p.header.parents
    && c.header.round in dag && c.header.author in dag[c.header.round] && dag[c.header.round][c.header.author] == c
    && (c.header.author in last ==> last[c.header.author] != c.header.round)
  }

  lemma {:induction false} PathOfReached(dag: Dag, last: map<Author, Round>, x: Certificate, y: Certificate)
    returns (path: seq<Certificate>)
    requires Reached(dag, last, x, y)
    ensures LivePath(dag, last, path, x, y)
    decreases x.Round() - y.Round()
  {
    path := [x];
    if y != x {
      var p :| LiveParent(dag, last, p, y) && Reached(dag, last, x, p);
      var front := PathOfReached(dag, last, x, p);
      path := front + [y];
      forall i | 1 <= i < |path| ensures LiveStep(dag, last, path[i - 1], path[i]) {
        if i < |front| { assert path[i - 1] == front[i - 1] && path[i] == front[i]; }
      }
    }
  }

  lemma {:induction false} ReachedByPath(dag: Dag, last: map<Author, Round>, path: seq<Certificate>, x: Certificate,
                                         y: Certificate)
    requires LivePath(dag, last, path, x, y)
    ensures Reached(dag, last, x, y) && y.Round() <= x.Round() && (y == x || y.Round() < x.Round())
    decreases |path|
  {
    if |path| > 1 {
      var n := |path| - 1;
      var front := path[..n];
      forall i | 1 <= i < n ensures LiveStep(dag, last, front[i - 1], front[i]) {
        assert LiveStep(dag, last, path[i - 1], path[i]);
      }
      ReachedByPath(dag, last, front, x, path[n - 1]);
      assert LiveStep(dag, last, path[n - 1], path[n]);
      assert LiveParent(dag, last, path[n - 1], y);
    }
  }

  /** Reached over live parents means at the end of a live path. */
  lemma ReachedMeans(dag: Dag, last: map<Author, Round>, x: Certificate, y: Certificate)
    ensures Reached(dag, last, x, y) <==> exists path :: LivePath(dag, last, path, x, y)
  {
    hide LivePath, Reached;
    if Reached(dag, last, x, y) { var path := PathOfReached(dag, last, x, y); }
    if path :| LivePath(dag, last, path, x, y) { ReachedByPath(dag, last, path, x, y); }
  }

  /** What the flattening of a leader returns: the leader and exactly the stored certificates
      reached from it over live parents, no digest twice. */
  ghost predicate SubDag(dag: Dag, last: map<Author, Round>, leader: Certificate, cs: seq<Certificate>) {
    && leader in cs
    && (forall c :: c in cs ==> c == leader || (InDag(dag, c) && c.Round() < leader.Round()))
    && (forall c :: c in cs ==> Reached(dag, last, leader, c))
    && DistinctDigests(cs)
    && (forall x, y :: x in cs && LiveParent(dag, last, x, y) ==> y.Digest() in DigestsOf(cs))
  }

  ghost predicate Collectable(dag: Dag, last: map<Author, Round>, leader: Certificate, c: Certificate) {
    (c == leader || (InDag(dag, c) && c.Round() < leader.Round())) && Reached(dag, last, leader, c)
  }

  lemma CollectableParent(dag: Dag, last: map<Author, Round>, leader: Certificate, x: Certificate, y: Certificate)
    requires Collectable(dag, last, leader, x) && LiveParent(dag, last, x, y)
    ensures Collectable(dag, last, leader, y)
  {
  }

  /** State of the depth-first collection. */
  ghost predicate Collecting(dag: Dag, last: map<Author, Round>, leader: Certificate,
                             ordered: seq<Certificate>, buffer: seq<Certificate>, seen: set<Digest>) {
    && leader in ordered + buffer
    && (forall c :: c in ordered + buffer ==> Collectable(dag, last, leader, c))
    && DistinctDigests(ordered + buffer)
    && DigestsOf(ordered + buffer) == seen + {leader.Digest()} && leader.Digest() !in seen
    && (forall x, y :: x in ordered && LiveParent(dag, last, x, y) ==> y.Digest() in seen)
  }

  // ---------------------------------------------------------------- the order within a round

  /** The certificates of one round, in order. */
  ghost function OfRound(cs: seq<Certificate>, k: Round): seq<Certificate> {
    if cs == [] then []
    else OfRound(cs[..|cs| - 1], k) + if cs[|cs| - 1].Round() == k then [cs[|cs| - 1]] else []
  }

  ghost function Backwards(cs: seq<Certificate>): seq<Certificate> {
    seq(|cs|, i requires 0 <= i < |cs| => cs[|cs| - 1 - i])
  }

  lemma {:induction false} OfRoundConcat(xs: seq<Certificate>, ys: seq<Certificate>, k: Round)
    ensures OfRound(xs + ys, k) == OfRound(xs, k) + OfRound(ys, k)
    decreases |ys|
  {
    if ys == [] {
      assert xs + ys == xs;
    } else {
      assert (xs + ys)[..|xs + ys| - 1] == xs + ys[..|ys| - 1];
      OfRoundConcat(xs, ys[..|ys| - 1], k);
    }
  }

  lemma {:induction false} OfRoundMembers(cs: seq<Certificate>, k: Round)
    ensures forall c :: c in OfRound(cs, k) <==> c in cs && c.Round() == k
  {
    if cs != [] {
      OfRoundMembers(cs[..|cs| - 1], k);
      assert cs == cs[..|cs| - 1] + [cs[|cs| - 1]];
    }
  }

  lemma {:induction false} OfRoundAll(cs: seq<Certificate>, r: Round, k: Round)
    requires forall c :: c in cs ==> c.Round() == r
    ensures OfRound(cs, k) == if k == r then cs else []
  {
    if cs != [] {
      assert cs[|cs| - 1] in cs;
      OfRoundAll(cs[..|cs| - 1], r, k);
      assert cs == cs[..|cs| - 1] + [cs[|cs| - 1]];
    }
  }

  lemma OfRoundNone(cs: seq<Certificate>, k: Round)
    requires forall c :: c in cs ==> c.Round() != k
    ensures OfRound(cs, k) == []
  {
    OfRoundMembers(cs, k);
    if OfRound(cs, k) != [] { assert OfRound(cs, k)[0] in OfRound(cs, k); }
  }

  lemma BackwardsMembers(cs: seq<Certificate>)
    ensures forall c :: c in Backwards(cs) <==> c in cs
  {
    forall c | c in cs ensures c in Backwards(cs) {
      var i :| 0 <= i < |cs| && cs[i] == c;
      assert Backwards(cs)[|cs| - 1 - i] == c;
    }
  }

  lemma BackwardsConcat(xs: seq<Certificate>, ys: seq<Certificate>)
    ensures Backwards(xs + ys) == Backwards(ys) + Backwards(xs)
  {
  }

  /** Of two neighbours in `vs` the earlier is referenced from some place in `us` before which nothing
      references the later; if that place references both, the earlier has the larger digest. */
  ghost predicate FirstReferenced(dag: Dag, last: map<Author, Round>, us: seq<Certificate>, y: Certificate,
                                  z: Certificate) {
    exists a :: 0 <= a < |us| && LiveParent(dag, last, us[a], y)
                && forall b :: 0 <= b < |us| && LiveParent(dag, last, us[b], z) ==>
                     b > a || (b == a && y.Digest() > z.Digest())
  }

  /** The certificates `vs` of one round are in the order in which those of the round above, `us`, first
      reference them. */
  ghost predicate InReferenceOrder(dag: Dag, last: map<Author, Round>, us: seq<Certificate>, vs: seq<Certificate>) {
    forall i, j :: 0 <= i < j < |vs| ==> FirstReferenced(dag, last, us, vs[i], vs[j])
  }

  ghost predicate Referenced(dag: Dag, last: map<Author, Round>, us: seq<Certificate>, vs: seq<Certificate>) {
    forall i :: 0 <= i < |vs| ==> HasReference(dag, last, us, vs[i])
  }

  ghost predicate HasReference(dag: Dag, last: map<Author, Round>, us: seq<Certificate>, y: Certificate) {
    exists u :: u in us && LiveParent(dag, last, u, y)
  }

  /** One more certificate above, and the new ones it references below. */
  lemma ReferenceGrows(dag: Dag, last: map<Author, Round>, us: seq<Certificate>, vs: seq<Certificate>, x: Certificate,
                       news: seq<Certificate>)
    requires InReferenceOrder(dag, last, us, vs) && Referenced(dag, last, us, vs)
    requires forall z :: z in news ==> LiveParent(dag, last, x, z)
    requires forall u, z :: u in us && z in news ==> !LiveParent(dag, last, u, z)
    requires forall i, j :: 0 <= i < j < |news| ==> news[i].Digest() > news[j].Digest()
    ensures InReferenceOrder(dag, last, us + [x], vs + news) && Referenced(dag, last, us + [x], vs + news)
  {
    hide LiveParent;
    var ws, all := us + [x], vs + news;
    forall i, j | 0 <= i < j < |all| ensures FirstReferenced(dag, last, ws, all[i], all[j]) {
      if j < |vs| {
        var a :| 0 <= a < |us| && LiveParent(dag, last, us[a], vs[i])
                 && forall b :: 0 <= b < |us| && LiveParent(dag, last, us[b], vs[j]) ==>
                      b > a || (b == a && vs[i].Digest() > vs[j].Digest());
        assert ws[a] == us[a];
        forall b | 0 <= b < |ws| && LiveParent(dag, last, ws[b], all[j])
          ensures b > a || (b == a && all[i].Digest() > all[j].Digest())
        {
          if b < |us| { assert ws[b] == us[b]; }
        }
      } else {
        FreshLater(dag, last, us, vs, x, news, i, j);
      }
    }
    forall i | 0 <= i < |all| ensures HasReference(dag, last, ws, all[i]) {
      if i < |vs| {
        assert HasReference(dag, last, us, vs[i]);
        var u :| u in us && LiveParent(dag, last, u, vs[i]);
        assert u in ws;
      } else {
        assert news[i - |vs|] in news && x in ws;
      }
    }
  }

  lemma FreshLater(dag: Dag, last: map<Author, Round>, us: seq<Certificate>, vs: seq<Certificate>, x: Certificate,
                   news: seq<Certificate>, i: nat, j: nat)
    requires Referenced(dag, last, us, vs) && |vs| <= j < |vs| + |news| && i < j
    requires forall z :: z in news ==> LiveParent(dag, last, x, z)
    requires forall u, z :: u in us && z in news ==> !LiveParent(dag, last, u, z)
    requires forall i, j :: 0 <= i < j < |news| ==> news[i].Digest() > news[j].Digest()
    ensures FirstReferenced(dag, last, us + [x], (vs + news)[i], (vs + news)[j])
  {
    hide LiveParent;
    var ws, z := us + [x], news[j - |vs|];
    assert z in news;
    var a := |us|;
    if i < |vs| {
      assert HasReference(dag, last, us, vs[i]);
      var u :| u in us && LiveParent(dag, last, u, vs[i]);
      a :| 0 <= a < |us| && us[a] == u;
      assert ws[a] == u;
    } else {
      assert news[i - |vs|] in news;
    }
    forall b | 0 <= b < |us| ensures !LiveParent(dag, last, ws[b], z) { assert us[b] in us; }
    assert LiveParent(dag, last, ws[a], (vs + news)[i]) && (vs + news)[j] == z;
  }

  /** Popped so far, then the stack from its top. */
  ghost function Sequence(ordered: seq<Certificate>, buffer: seq<Certificate>): seq<Certificate> {
    ordered + Backwards(buffer)
  }

  /** The stack deepens towards its top, and every round is in the order of first reference from the
      certificates popped so far. */
  ghost predicate Ordering(dag: Dag, last: map<Author, Round>, leader: Certificate, ordered: seq<Certificate>,
                           buffer: seq<Certificate>) {
    && (forall i, j :: 0 <= i < j < |buffer| ==> buffer[i].Round() >= buffer[j].Round())
    && (forall k: Round :: k < leader.Round() ==> Level(dag, last, ordered, buffer, k))
    && OfRound(Sequence(ordered, buffer), leader.Round()) == [leader]
  }

  ghost predicate Level(dag: Dag, last: map<Author, Round>, ordered: seq<Certificate>, buffer: seq<Certificate>,
                        k: Round) {
    var us, vs := OfRound(ordered, k + 1), OfRound(Sequence(ordered, buffer), k);
    InReferenceOrder(dag, last, us, vs) && Referenced(dag, last, us, vs)
  }

  lemma OrderingStart(dag: Dag, last: map<Author, Round>, leader: Certificate)
    ensures Ordering(dag, last, leader, [], [leader])
  {
    assert Sequence([], [leader]) == [leader];
    OfRoundAll([leader], leader.Round(), leader.Round());
    forall k: Round | k < leader.Round() ensures Level(dag, last, [], [leader], k) {
      OfRoundAll([leader], leader.Round(), k);
    }
  }

  /** Popping `x` moves it from the stack to the popped; the pushed ones go right behind it. */
  lemma SequenceStep(ordered: seq<Certificate>, rest: seq<Certificate>, x: Certificate, added: seq<Certificate>,
                     k: Round)
    ensures OfRound(Sequence(ordered, rest + [x]), k) ==
            OfRound(ordered, k) + OfRound([x], k) + OfRound(Backwards(rest), k)
    ensures OfRound(Sequence(ordered + [x], rest + added), k) ==
            OfRound(ordered, k) + OfRound([x], k) + OfRound(Backwards(added), k) + OfRound(Backwards(rest), k)
    ensures OfRound(ordered + [x], k) == OfRound(ordered, k) + OfRound([x], k)
  {
    hide OfRound, Backwards;
    BackwardsConcat(rest, [x]);
    BackwardsConcat(rest, added);
    assert Backwards([x]) == [x] by { BackwardsOne(x); }
    assert Sequence(ordered, rest + [x]) == (ordered + [x]) + Backwards(rest);
    assert Sequence(ordered + [x], rest + added) == ((ordered + [x]) + Backwards(added)) + Backwards(rest);
    OfRoundConcat(ordered, [x], k);
    OfRoundConcat(ordered + [x], Backwards(rest), k);
    OfRoundConcat(ordered + [x], Backwards(added), k);
    OfRoundConcat((ordered + [x]) + Backwards(added), Backwards(rest), k);
  }

  lemma BackwardsOne(x: Certificate)
    ensures Backwards([x]) == [x]
  {
  }

  lemma OrderingStep(dag: Dag, last: map<Author, Round>, leader: Certificate, ordered: seq<Certificate>,
                     rest: seq<Certificate>, x: Certificate, added: seq<Certificate>)
    requires Ordering(dag, last, leader, ordered, rest + [x]) && x.Round() <= leader.Round()
    requires forall z :: z in added ==> LiveParent(dag, last, x, z)
    requires forall u, z :: u in ordered && z in added ==> !LiveParent(dag, last, u, z)
    requires forall i, j :: 0 <= i < j < |added| ==> added[i].Digest() < added[j].Digest()
    ensures Ordering(dag, last, leader, ordered + [x], rest + added)
  {
    hide Level, OfRound, Sequence, Backwards;
    StackDeepens(dag, last, rest, x, added);
    forall k: Round | k < leader.Round() ensures Level(dag, last, ordered + [x], rest + added, k) {
      LevelStep(dag, last, ordered, rest, x, added, k);
    }
    LevelsAt(dag, last, ordered, rest, x, added, leader.Round());
  }

  lemma StackDeepens(dag: Dag, last: map<Author, Round>, rest: seq<Certificate>, x: Certificate,
                     added: seq<Certificate>)
    requires forall i, j :: 0 <= i < j < |rest + [x]| ==> (rest + [x])[i].Round() >= (rest + [x])[j].Round()
    requires forall z :: z in added ==> LiveParent(dag, last, x, z)
    ensures forall c :: c in rest ==> c.Round() >= x.Round()
    ensures forall c :: c in added ==> c.Round() + 1 == x.Round()
    ensures forall i, j :: 0 <= i < j < |rest + added| ==> (rest + added)[i].Round() >= (rest + added)[j].Round()
  {
    forall i | 0 <= i < |rest| ensures rest[i].Round() >= x.Round() {
      assert (rest + [x])[i].Round() >= (rest + [x])[|rest|].Round();
    }
    forall i, j | 0 <= i < j < |rest + added| ensures (rest + added)[i].Round() >= (rest + added)[j].Round() {
      if i < |rest| {
        assert rest[i] in rest;
        if j < |rest| { assert (rest + [x])[i] == rest[i]
            && (rest + [x])[j] == rest[j]; } else { assert added[j - |rest|] in added; }
      } else {
        assert added[i - |rest|] in added && added[j - |rest|] in added;
      }
    }
  }

  /** What a round holds before and after a step. */
  lemma LevelsAt(dag: Dag, last: map<Author, Round>, ordered: seq<Certificate>, rest: seq<Certificate>, x: Certificate,
                 added: seq<Certificate>, k: Round)
    requires forall c :: c in rest ==> c.Round() >= x.Round()
    requires forall c :: c in added ==> c.Round() + 1 == x.Round()
    ensures k + 1 != x.Round() ==>
              OfRound(Sequence(ordered + [x], rest + added), k) == OfRound(Sequence(ordered, rest + [x]), k)
    ensures k + 1 == x.Round() ==>
              && OfRound(Sequence(ordered, rest + [x]), k) == OfRound(ordered, k)
              && OfRound(Sequence(ordered + [x], rest + added), k) == OfRound(ordered, k) + Backwards(added)
    ensures OfRound(ordered + [x], k + 1) ==
            OfRound(ordered, k + 1) + if k + 1 == x.Round() then [x] else []
  {
    hide OfRound, Sequence, Backwards;
    SequenceStep(ordered, rest, x, added, k);
    SequenceStep(ordered, rest, x, added, k + 1);
    BackwardsMembers(added);
    BackwardsMembers(rest);
    OfRoundAll([x], x.Round(), k);
    OfRoundAll([x], x.Round(), k + 1);
    if k + 1 == x.Round() {
      OfRoundAll(Backwards(added), k, k);
      OfRoundNone(Backwards(rest), k);
    } else {
      OfRoundNone(Backwards(added), k);
    }
  }

  lemma LevelStep(dag: Dag, last: map<Author, Round>, ordered: seq<Certificate>, rest: seq<Certificate>, x: Certificate,
                  added: seq<Certificate>, k: Round)
    requires Level(dag, last, ordered, rest + [x], k)
    requires forall c :: c in rest ==> c.Round() >= x.Round()
    requires forall c :: c in added ==> c.Round() + 1 == x.Round()
    requires forall z :: z in added ==> LiveParent(dag, last, x, z)
    requires forall u, z :: u in ordered && z in added ==> !LiveParent(dag, last, u, z)
    requires forall i, j :: 0 <= i < j < |added| ==> added[i].Digest() < added[j].Digest()
    ensures Level(dag, last, ordered + [x], rest + added, k)
  {
    hide OfRound, Sequence, LiveParent, InReferenceOrder, Referenced;
    LevelsAt(dag, last, ordered, rest, x, added, k);
    if k + 1 == x.Round() {
      BackwardsMembers(added);
      OfRoundMembers(ordered, k + 1);
      ReferenceGrows(dag, last, OfRound(ordered, k + 1), OfRound(ordered, k), x, Backwards(added));
    } else {
      assert OfRound(ordered, k + 1) + [] == OfRound(ordered, k + 1);
    }
  }

  /** Every round is in the order of first reference from the round above; the topmost holds the leader. */
  ghost predicate ByReference(dag: Dag, last: map<Author, Round>, leader: Certificate, floor: Round,
                              cs: seq<Certificate>) {
    && (forall k: Round :: floor <= k < leader.Round() ==>
        InReferenceOrder(dag, last, OfRound(cs, k + 1), OfRound(cs, k)))
    && (floor <= leader.Round() ==> OfRound(cs, leader.Round()) == [leader])
  }

  lemma OrderingDone(dag: Dag, last: map<Author, Round>, leader: Certificate, ordered: seq<Certificate>)
    requires Ordering(dag, last, leader, ordered, [])
    ensures ByReference(dag, last, leader, 0, ordered)
  {
    hide OfRound, InReferenceOrder;
    assert Sequence(ordered, []) == ordered;
    forall k: Round | k < leader.Round() ensures InReferenceOrder(dag, last, OfRound(ordered, k + 1), OfRound(ordered,
        k)) {
      assert Level(dag, last, ordered, [], k);
    }
  }

  /** The depth-first collection, before sorting. */
  method CollectSubDag(dag: Dag, last: map<Author, Round>, leader: Certificate) returns (ordered: seq<Certificate>)
    requires WellKeyed(dag) && OnePerDigest(dag) && Grounded(dag, leader)
    ensures SubDag(dag, last, leader, ordered) && ByReference(dag, last, leader, 0, ordered)
  {
    hide Collecting, WellKeyed, OnePerDigest, LiveParent, DagDigests, SubDag, Ordering, ByReference;
    ordered := [];
    var seen: set<Digest> := {};
    var buffer := [leader];
    CollectStart(dag, last, leader);
    OrderingStart(dag, last, leader);
    while buffer != []
      invariant Collecting(dag, last, leader, ordered, buffer, seen) && Ordering(dag, last, leader, ordered, buffer)
      decreases DagDigests(dag) - seen, |buffer|
    {
      var x := buffer[|buffer| - 1];
      var rest := buffer[..|buffer| - 1];
      assert buffer == rest + [x];
      PoppedGrounded(dag, last, leader, ordered, buffer, seen, x);
      var buffer', seen' := PushParents(dag, last, x, rest, seen);
      StepCollect(dag, last, leader, ordered, buffer, x, rest, buffer', seen, seen');
      StepOrdering(dag, last, leader, ordered, buffer, x, rest, buffer', seen, seen');
      ordered, buffer, seen := ordered + [x], buffer', seen';
    }
    CollectDone(dag, last, leader, ordered, seen);
    OrderingDone(dag, last, leader, ordered);
  }

  lemma StepOrdering(dag: Dag, last: map<Author, Round>, leader: Certificate, ordered: seq<Certificate>,
                     buffer: seq<Certificate>, x: Certificate, rest: seq<Certificate>, buffer': seq<Certificate>,
                     seen: set<Digest>, seen': set<Digest>)
    requires buffer == rest + [x] && rest <= buffer' && Ordering(dag, last, leader, ordered, buffer)
    requires Collecting(dag, last, leader, ordered, buffer, seen) && Collectable(dag, last, leader, x)
    requires forall i :: |rest| <= i < |buffer'| ==>
               LiveParent(dag, last, x, buffer'[i]) && buffer'[i].Digest() in seen' && buffer'[i].Digest() !in seen
    requires forall i, j :: |rest| <= i < j < |buffer'| ==> buffer'[i].Digest() < buffer'[j].Digest()
    ensures Ordering(dag, last, leader, ordered + [x], buffer')
  {
    hide LiveParent, DistinctDigests, DigestsOf, Ordering, Reached;
    var added := buffer'[|rest|..];
    assert buffer' == rest + added;
    forall i | 0 <= i < |added| ensures LiveParent(dag, last, x, added[i]) && added[i].Digest() !in seen {
      assert added[i] == buffer'[|rest| + i];
    }
    forall i, j | 0 <= i < j < |added| ensures added[i].Digest() < added[j].Digest() {
      assert added[i] == buffer'[|rest| + i] && added[j] == buffer'[|rest| + j];
    }
    OrderingStep(dag, last, leader, ordered, rest, x, added);
  }

  lemma CollectStart(dag: Dag, last: map<Author, Round>, leader: Certificate)
    ensures Collecting(dag, last, leader, [], [leader], {})
  {
    assert [] + [leader] == [leader];
  }

  lemma PoppedGrounded(dag: Dag, last: map<Author, Round>, leader: Certificate, ordered: seq<Certificate>,
                       buffer: seq<Certificate>, seen: set<Digest>, x: Certificate)
    requires Grounded(dag, leader) && Collecting(dag, last, leader, ordered, buffer, seen) && x in buffer
    ensures x.Round() == 0 ==> x.header.parents == {}
    ensures Collectable(dag, last, leader, x)
  {
    assert x in ordered + buffer;
  }

  lemma CollectDone(dag: Dag, last: map<Author, Round>, leader: Certificate, ordered: seq<Certificate>,
                    seen: set<Digest>)
    requires Collecting(dag, last, leader, ordered, [], seen)
    ensures SubDag(dag, last, leader, ordered)
  {
    assert ordered + [] == ordered;
  }

  lemma StepCollect(dag: Dag, last: map<Author, Round>, leader: Certificate, ordered: seq<Certificate>,
                    buffer: seq<Certificate>, x: Certificate, rest: seq<Certificate>, buffer': seq<Certificate>,
                    seen: set<Digest>, seen': set<Digest>)
    requires Grounded(dag, leader) && buffer == rest + [x] && rest <= buffer'
    requires Collecting(dag, last, leader, ordered, buffer, seen) && Collectable(dag, last, leader, x)
    requires forall i :: |rest| <= i < |buffer'| ==>
               LiveParent(dag, last, x, buffer'[i]) && buffer'[i].Digest() in seen' && buffer'[i].Digest() !in seen
    requires forall i, j :: |rest| <= i < j < |buffer'| ==> buffer'[i].Digest() != buffer'[j].Digest()
    requires forall y :: LiveParent(dag, last, x, y) ==> y.Digest() in seen'
    requires seen' == seen + set c | c in buffer'[|rest|..] :: c.Digest()
    ensures Collecting(dag, last, leader, ordered + [x], buffer', seen')
  {
    hide LiveParent, DistinctDigests, DigestsOf, Grounded, Collectable;
    var added := buffer'[|rest|..];
    CollectableRound(dag, last, leader, x);
    AddedFresh(dag, last, leader, x, rest, buffer', seen, seen');
    StepDigests(ordered, buffer, x, rest, buffer', added);
    AddedCollectable(dag, last, leader, x, added) by {
      forall i | 0 <= i < |added| ensures LiveParent(dag, last, x, added[i]) {
        assert added[i] == buffer'[|rest| + i];
      }
    }
    assert seen + {leader.Digest()} + DigestsOf(added) == seen' + {leader.Digest()};
    forall z, y | z in ordered + [x] && LiveParent(dag, last, z, y) ensures y.Digest() in seen' {
      assert z in ordered || z == x;
    }
  }

  lemma StepDigests(ordered: seq<Certificate>, buffer: seq<Certificate>, x: Certificate, rest: seq<Certificate>,
                    buffer': seq<Certificate>, added: seq<Certificate>)
    requires buffer == rest + [x] && rest <= buffer' && added == buffer'[|rest|..]
    requires DistinctDigests(ordered + buffer) && DistinctDigests(added)
    requires DigestsOf(added) !! DigestsOf(ordered + buffer)
    ensures var all := ordered + [x] + buffer';
            && DistinctDigests(all) && DigestsOf(all) == DigestsOf(ordered + buffer) + DigestsOf(added)
            && forall c :: c in all <==> c in ordered + buffer || c in added
  {
    hide DistinctDigests, DigestsOf;
    var front := ordered + [x] + rest;
    assert buffer' == rest + added;
    assert ordered + [x] + buffer' == front + added;
    DigestsConcat(front, added);
    SameDigests(ordered, rest, x);
    DistinctAppend(front, added);
  }

  lemma CollectableRound(dag: Dag, last: map<Author, Round>, leader: Certificate, c: Certificate)
    requires Collectable(dag, last, leader, c)
    ensures c == leader || (InDag(dag, c) && c.Round() < leader.Round())
  {
  }

  lemma AddedCollectable(dag: Dag, last: map<Author, Round>, leader: Certificate, x: Certificate,
                         added: seq<Certificate>)
    requires Collectable(dag, last, leader, x)
    requires forall i :: 0 <= i < |added| ==> LiveParent(dag, last, x, added[i])
    ensures forall c :: c in added ==> Collectable(dag, last, leader, c)
  {
    forall c | c in added ensures Collectable(dag, last, leader, c) {
      CollectableParent(dag, last, leader, x, c);
    }
  }

  lemma AddedFresh(dag: Dag, last: map<Author, Round>, leader: Certificate, x: Certificate, rest: seq<Certificate>,
                   buffer': seq<Certificate>, seen: set<Digest>, seen': set<Digest>)
    requires Grounded(dag, leader) && rest <= buffer'
    requires x == leader || (InDag(dag, x) && x.Round() < leader.Round())
    requires leader.Digest() !in seen
    requires forall i :: |rest| <= i < |buffer'| ==>
               LiveParent(dag, last, x, buffer'[i]) && buffer'[i].Digest() in seen' && buffer'[i].Digest() !in seen
    requires forall i, j :: |rest| <= i < j < |buffer'| ==> buffer'[i].Digest() != buffer'[j].Digest()
    requires seen' == seen + set c | c in buffer'[|rest|..] :: c.Digest()
    ensures var added := buffer'[|rest|..];
            && DistinctDigests(added) && DigestsOf(added) !! (seen + {leader.Digest()})
            && seen' == seen + DigestsOf(added) && leader.Digest() !in seen'
  {
    var added := buffer'[|rest|..];
    forall i | 0 <= i < |added| ensures added[i].Digest() !in seen && added[i].Digest() != leader.Digest() {
      assert added[i] == buffer'[|rest| + i];
    }
    forall i, j | 0 <= i < j < |added| ensures added[i].Digest() != added[j].Digest() {
      assert added[i] == buffer'[|rest| + i] && added[j] == buffer'[|rest| + j];
    }
  }

  lemma DigestsConcat(xs: seq<Certificate>, ys: seq<Certificate>)
    ensures DigestsOf(xs + ys) == DigestsOf(xs) + DigestsOf(ys)
    ensures forall c :: c in xs + ys <==> c in xs || c in ys
  {
    forall d | d in DigestsOf(xs) + DigestsOf(ys) ensures d in DigestsOf(xs + ys) {
      var c :| (c in xs || c in ys) && c.Digest() == d;
      assert c in xs + ys;
    }
  }

  lemma DistinctAppend(xs: seq<Certificate>, ys: seq<Certificate>)
    requires DistinctDigests(xs) && DistinctDigests(ys) && DigestsOf(xs) !! DigestsOf(ys)
    ensures DistinctDigests(xs + ys)
  {
    forall i, j | 0 <= i < j < |xs + ys| ensures (xs + ys)[i].Digest() != (xs + ys)[j].Digest() {
      if i < |xs| <= j {
        assert xs[i] in xs && ys[j - |xs|] in ys;
        assert xs[i].Digest() in DigestsOf(xs) && ys[j - |xs|].Digest() in DigestsOf(ys);
      }
    }
  }

  lemma SameDigests(ordered: seq<Certificate>, rest: seq<Certificate>, x: Certificate)
    requires DistinctDigests(ordered + (rest + [x]))
    ensures DistinctDigests(ordered + [x] + rest)
    ensures DigestsOf(ordered + [x] + rest) == DigestsOf(ordered + (rest + [x]))
    ensures forall c :: c in ordered + [x] + rest <==> c in ordered + (rest + [x])
  {
    var before, after := ordered + (rest + [x]), ordered + [x] + rest;
    forall c ensures c in after <==> c in before {}
    forall i, j | 0 <= i < j < |after| ensures after[i].Digest() != after[j].Digest() {
      SwapDistinct(ordered, rest, x, i, j);
    }
  }

  /** Moving the popped element to the front of the rest keeps digests distinct. */
  lemma SwapDistinct(ordered: seq<Certificate>, rest: seq<Certificate>, x: Certificate, i: nat, j: nat)
    requires DistinctDigests(ordered + (rest + [x])) && i < j < |ordered| + 1 + |rest|
    ensures (ordered + [x] + rest)[i].Digest() != (ordered + [x] + rest)[j].Digest()
  {
    var n, m := |ordered|, |rest|;
    var before, after := ordered + (rest + [x]), ordered + [x] + rest;
    var i' := if i < n then i else if i == n then n + m else i - 1;
    var j' := if j < n then j else if j == n then n + m else j - 1;
    assert after[i] == before[i'] && after[j] == before[j'];
    assert i' != j';
  }

  // ---------------------------------------------------------------- stable sort by round

  function InsertByRound(cs: seq<Certificate>, c: Certificate): seq<Certificate> {
    if cs == [] || cs[|cs| - 1].Round() <= c.Round() then cs + [c]
    else InsertByRound(cs[..|cs| - 1], c) + [cs[|cs| - 1]]
  }

  function SortByRound(cs: seq<Certificate>): seq<Certificate> {
    if cs == [] then [] else InsertByRound(SortByRound(cs[..|cs| - 1]), cs[|cs| - 1])
  }

  ghost predicate Ascending(cs: seq<Certificate>) {
    forall i, j :: 0 <= i < j < |cs| ==> cs[i].Round() <= cs[j].Round()
  }

  lemma {:induction false} InsertMembers(cs: seq<Certificate>, c: Certificate)
    ensures multiset(InsertByRound(cs, c)) == multiset(cs) + multiset{c}
    ensures forall x :: x in InsertByRound(cs, c) ==> x in cs || x == c
  {
    if cs != [] && cs[|cs| - 1].Round() > c.Round() {
      InsertMembers(cs[..|cs| - 1], c);
      assert cs == cs[..|cs| - 1] + [cs[|cs| - 1]];
    }
  }

  lemma {:induction false} InsertSound(cs: seq<Certificate>, c: Certificate)
    requires Ascending(cs)
    ensures Ascending(InsertByRound(cs, c))
    ensures multiset(InsertByRound(cs, c)) == multiset(cs) + multiset{c}
  {
    InsertMembers(cs, c);
    if cs != [] && cs[|cs| - 1].Round() > c.Round() {
      var front, z := cs[..|cs| - 1], cs[|cs| - 1];
      InsertSound(front, c);
      InsertMembers(front, c);
      var t := InsertByRound(front, c);
      forall i | 0 <= i < |t| ensures t[i].Round() <= z.Round() {
        assert t[i] in t;
      }
    }
  }

  lemma {:induction false} SortSound(cs: seq<Certificate>)
    ensures Ascending(SortByRound(cs)) && multiset(SortByRound(cs)) == multiset(cs)
  {
    hide Ascending, InsertByRound;
    if cs == [] {
      EmptyAscending();
    } else {
      var front := cs[..|cs| - 1];
      SortSound(front);
      InsertSound(SortByRound(front), cs[|cs| - 1]);
      assert cs == front + [cs[|cs| - 1]];
    }
  }

  lemma EmptyAscending()
    ensures Ascending([])
  {
  }

  lemma SortKeepsMembers(cs: seq<Certificate>)
    ensures forall c :: c in SortByRound(cs) <==> c in cs
  {
    SortSound(cs);
    forall c ensures c in SortByRound(cs) <==> c in cs {
      assert c in multiset(SortByRound(cs)) <==> c in multiset(cs);
    }
  }

  function KeepFrom(cs: seq<Certificate>, floor: Round): (r: seq<Certificate>)
    ensures forall c :: c in r <==> c in cs && c.Round() >= floor
  {
    if cs == [] then []
    else if cs[0].Round() >= floor then [cs[0]] + KeepFrom(cs[1..], floor)
    else KeepFrom(cs[1..], floor)
  }

  /** The lowest round of an output: Bullshark keeps `round + gcDepth >= last`, Narwhal everything. */
  function KeepFloor(trim: bool, gcDepth: nat, last: Round): (floor: Round)
    ensures floor <= last && (!trim ==> floor == 0)
    ensures trim ==> floor + gcDepth >= last && (floor > 0 ==> floor - 1 + gcDepth < last)
  {
    if trim && last > gcDepth then last - gcDepth else 0
  }

  /** The sub-dag of a leader without the rounds below `floor`, in ascending round order. */
  method OrderDag(dag: Dag, last: map<Author, Round>, leader: Certificate,
                  floor: Round) returns (ordered: seq<Certificate>)
    requires WellKeyed(dag) && OnePerDigest(dag) && Grounded(dag, leader)
    ensures Ascending(ordered)
    ensures exists all :: SubDag(dag, last, leader, all) && multiset(ordered) == multiset(KeepFrom(all, floor))
    ensures forall c :: c in ordered ==> c.Round() <= leader.Round()
    ensures leader.Round() >= floor ==> leader in ordered
    ensures ByReference(dag, last, leader, floor, ordered)
  {
    hide WellKeyed, OnePerDigest, Grounded, InDag, Reached, DistinctDigests, LiveParent, ByReference;
    var all := CollectSubDag(dag, last, leader);
    var kept := KeepFrom(all, floor);
    SortSound(kept);
    SortKeepsMembers(kept);
    SortKeepsReference(dag, last, leader, floor, all);
    ordered := SortByRound(kept);
  }

  // ---------------------------------------------------------------- the sort keeps the order within a round

  lemma {:induction false} InsertKeepsRound(cs: seq<Certificate>, c: Certificate, k: Round)
    ensures OfRound(InsertByRound(cs, c), k) == OfRound(cs, k) + if c.Round() == k then [c] else []
  {
    if cs != [] && cs[|cs| - 1].Round() > c.Round() {
      var front, z := cs[..|cs| - 1], cs[|cs| - 1];
      InsertKeepsRound(front, c, k);
      var t := InsertByRound(front, c);
      assert (t + [z])[..|t|] == t;
    } else {
      assert (cs + [c])[..|cs|] == cs;
    }
  }

  lemma {:induction false} SortKeepsRound(cs: seq<Certificate>, k: Round)
    ensures OfRound(SortByRound(cs), k) == OfRound(cs, k)
  {
    if cs != [] {
      SortKeepsRound(cs[..|cs| - 1], k);
      InsertKeepsRound(SortByRound(cs[..|cs| - 1]), cs[|cs| - 1], k);
    }
  }

  lemma {:induction false} KeepsRound(cs: seq<Certificate>, floor: Round, k: Round)
    requires k >= floor
    ensures OfRound(KeepFrom(cs, floor), k) == OfRound(cs, k)
  {
    if cs != [] {
      KeepsRound(cs[1..], floor, k);
      assert cs == [cs[0]] + cs[1..];
      OfRoundConcat([cs[0]], cs[1..], k);
      OfRoundAll([cs[0]], cs[0].Round(), k);
      if cs[0].Round() >= floor { OfRoundConcat([cs[0]], KeepFrom(cs[1..], floor), k); }
    }
  }

  lemma SortKeepsReference(dag: Dag, last: map<Author, Round>, leader: Certificate, floor: Round, all: seq<Certificate>)
    requires ByReference(dag, last, leader, 0, all)
    ensures ByReference(dag, last, leader, floor, SortByRound(KeepFrom(all, floor)))
  {
    hide OfRound, SortByRound, KeepFrom, InReferenceOrder;
    var kept := KeepFrom(all, floor);
    forall k: Round | k >= floor ensures OfRound(SortByRound(kept), k) == OfRound(all, k) {
      SortKeepsRound(kept, k);
      KeepsRound(all, floor, k);
    }
  }

  // ---------------------------------------------------------------- one arrangement only

  /** `x` stands before `y`. */
  ghost predicate Precedes(xs: seq<Certificate>, x: Certificate, y: Certificate) {
    exists i, j :: 0 <= i < j < |xs| && xs[i] == x && xs[j] == y
  }

  /** Two sequences without repeats that order no pair differently are equal. */
  lemma {:induction false} SameOrderSame(xs: seq<Certificate>, ys: seq<Certificate>)
    requires Distinct(xs) && Distinct(ys) && forall c :: c in xs <==> c in ys
    requires forall x, y :: Precedes(xs, x, y) ==> !Precedes(ys, y, x)
    ensures xs == ys
  {
    hide Distinct, Precedes;
    NoMembers(xs);
    NoMembers(ys);
    if xs != [] {
      HeadFirst(xs, ys[0]);
      HeadFirst(ys, xs[0]);
      TailsAgree(xs, ys);
      TailPrecedes(xs);
      TailPrecedes(ys);
      SameOrderSame(xs[1..], ys[1..]);
      assert xs == [xs[0]] + xs[1..] && ys == [ys[0]] + ys[1..];
    }
  }

  lemma NoMembers(xs: seq<Certificate>)
    ensures xs == [] <==> forall c :: c !in xs
    ensures xs != [] ==> xs[0] in xs
  {
    assert xs != [] ==> xs[0] in xs;
  }

  lemma HeadFirst(xs: seq<Certificate>, y: Certificate)
    requires xs != [] && y in xs
    ensures y == xs[0] || Precedes(xs, xs[0], y)
  {
    var j :| 0 <= j < |xs| && xs[j] == y;
  }

  lemma TailPrecedes(xs: seq<Certificate>)
    requires xs != []
    ensures forall x, y :: Precedes(xs[1..], x, y) ==> Precedes(xs, x, y)
  {
    forall x, y | Precedes(xs[1..], x, y) ensures Precedes(xs, x, y) {
      var i, j :| 0 <= i < j < |xs[1..]| && xs[1..][i] == x && xs[1..][j] == y;
      assert xs[i + 1] == x && xs[j + 1] == y;
    }
  }

  lemma TailsAgree(xs: seq<Certificate>, ys: seq<Certificate>)
    requires xs != [] && ys != [] && xs[0] == ys[0] && Distinct(xs) && Distinct(ys)
    requires forall c :: c in xs <==> c in ys
    ensures Distinct(xs[1..]) && Distinct(ys[1..]) && forall c :: c in xs[1..] <==> c in ys[1..]
  {
    TailMembers(xs);
    TailMembers(ys);
  }

  lemma TailMembers(xs: seq<Certificate>)
    requires xs != [] && Distinct(xs)
    ensures Distinct(xs[1..]) && forall c :: c in xs[1..] <==> c in xs && c != xs[0]
  {
    forall c ensures c in xs[1..] <==> c in xs && c != xs[0] {
      if c in xs[1..] {
        var i :| 0 <= i < |xs[1..]| && xs[1..][i] == c;
        assert xs[i + 1] == c;
      }
    }
  }

  /** Two arrangements of one round by first reference from the same round above are equal. */
  lemma ReferenceOrderUnique(dag: Dag, last: map<Author, Round>, us: seq<Certificate>, vs: seq<Certificate>,
                             ws: seq<Certificate>)
    requires InReferenceOrder(dag, last, us, vs) && InReferenceOrder(dag, last, us, ws)
    requires Distinct(vs) && Distinct(ws) && forall c :: c in vs <==> c in ws
    ensures vs == ws
  {
    hide FirstReferenced;
    forall x, y | Precedes(vs, x, y) ensures !Precedes(ws, y, x) { NotBothFirst(dag, last, us, x, y); }
    SameOrderSame(vs, ws);
  }

  lemma NotBothFirst(dag: Dag, last: map<Author, Round>, us: seq<Certificate>, y: Certificate, z: Certificate)
    ensures !(FirstReferenced(dag, last, us, y, z) && FirstReferenced(dag, last, us, z, y))
  {
    hide LiveParent;
  }

  /** Of two certificates of one round, the first is referenced from above no later than the second; and if
      no certificate above references just one of them, the first has the larger digest. */
  lemma ReferenceOrderMeans(dag: Dag, last: map<Author, Round>, us: seq<Certificate>, vs: seq<Certificate>, i: nat,
                            j: nat)
    requires InReferenceOrder(dag, last, us, vs) && i < j < |vs|
    ensures exists a :: 0 <= a < |us| && LiveParent(dag, last, us[a], vs[i])
                        && forall b :: 0 <= b < a ==> !LiveParent(dag, last, us[b], vs[j])
    ensures (forall u :: u in us ==> (LiveParent(dag, last, u, vs[i]) <==> LiveParent(dag, last, u, vs[j]))) ==>
              vs[i].header.id > vs[j].header.id
  {
    hide LiveParent;
    var y, z := vs[i], vs[j];
    assert FirstReferenced(dag, last, us, y, z);
    var a :| 0 <= a < |us| && LiveParent(dag, last, us[a], y)
             && forall b :: 0 <= b < |us| && LiveParent(dag, last, us[b], z) ==>
                 b > a || (b == a && y.Digest() > z.Digest());
    assert us[a] in us;
  }

  lemma {:induction false} OfRoundDistinct(cs: seq<Certificate>, k: Round)
    requires DistinctDigests(cs)
    ensures Distinct(OfRound(cs, k))
  {
    if cs != [] {
      var front, z := cs[..|cs| - 1], cs[|cs| - 1];
      OfRoundDistinct(front, k);
      OfRoundMembers(front, k);
      forall i | 0 <= i < |front| ensures front[i] != z { assert cs[i].Digest() != cs[|cs| - 1].Digest(); }
      forall i | 0 <= i < |OfRound(front, k)| ensures OfRound(front, k)[i] != z {
        assert OfRound(front, k)[i] in OfRound(front, k);
      }
    }
  }

  /** By round and, within a round, by first reference: there is one such arrangement of a sub-dag, so the
      output of a leader is determined by what is stored. */
  lemma {:induction false} LevelsUnique(dag: Dag, last: map<Author, Round>, leader: Certificate, floor: Round,
                                        xs: seq<Certificate>, ys: seq<Certificate>, k: Round)
    requires ByReference(dag, last, leader, floor, xs) && ByReference(dag, last, leader, floor, ys)
    requires DistinctDigests(xs) && DistinctDigests(ys) && forall c :: c in xs <==> c in ys
    requires forall c :: c in xs ==> floor <= c.Round() <= leader.Round()
    ensures OfRound(xs, k) == OfRound(ys, k)
    decreases if k < leader.Round() then leader.Round() - k else 0
  {
    hide OfRound, InReferenceOrder, DistinctDigests;
    if k < floor || k > leader.Round() {
      OfRoundNone(xs, k);
      OfRoundNone(ys, k);
    } else if k < leader.Round() {
      LevelsUnique(dag, last, leader, floor, xs, ys, k + 1);
      OfRoundMembers(xs, k);
      OfRoundMembers(ys, k);
      OfRoundDistinct(xs, k);
      OfRoundDistinct(ys, k);
      ReferenceOrderUnique(dag, last, OfRound(xs, k + 1), OfRound(xs, k), OfRound(ys, k));
    }
  }

  lemma {:induction false} AscendingByLevels(xs: seq<Certificate>, ys: seq<Certificate>)
    requires Ascending(xs) && Ascending(ys) && forall k: Round :: OfRound(xs, k) == OfRound(ys, k)
    ensures xs == ys
    decreases |xs|
  {
    if xs == [] {
      if ys != [] { LastOfRound(ys); }
    } else {
      var x := xs[|xs| - 1];
      LastOfRound(xs);
      assert ys != [];
      var y := ys[|ys| - 1];
      LastOfRound(ys);
      HighestRounds(xs, ys);
      assert x == y;
      var front, back := xs[..|xs| - 1], ys[..|ys| - 1];
      forall k: Round ensures OfRound(front, k) == OfRound(back, k) {
        FrontOfRound(xs, k);
        FrontOfRound(ys, k);
      }
      AscendingByLevels(front, back);
      assert xs == front + [x] && ys == back + [y];
    }
  }

  lemma LastOfRound(xs: seq<Certificate>)
    requires xs != []
    ensures var x := xs[|xs| - 1]; OfRound(xs, x.Round()) != []
    ensures var x := xs[|xs| - 1]; OfRound(xs, x.Round())[|OfRound(xs, x.Round())| - 1] == x
  {
  }

  lemma FrontOfRound(cs: seq<Certificate>, k: Round)
    requires cs != []
    ensures var c, all := cs[|cs| - 1], OfRound(cs, k);
            && (c.Round() == k ==> all != [])
            && OfRound(cs[..|cs| - 1], k) == if c.Round() == k then all[..|all| - 1] else all
  {
  }

  lemma HighestRounds(xs: seq<Certificate>, ys: seq<Certificate>)
    requires xs != [] && ys != [] && Ascending(xs) && Ascending(ys)
    requires forall k: Round :: OfRound(xs, k) == OfRound(ys, k)
    ensures xs[|xs| - 1].Round() == ys[|ys| - 1].Round()
  {
    hide OfRound;
    var x, y := xs[|xs| - 1], ys[|ys| - 1];
    OfRoundMembers(xs, y.Round());
    OfRoundMembers(ys, x.Round());
    OfRoundMembers(xs, x.Round());
    OfRoundMembers(ys, y.Round());
    assert x in xs && y in ys;
    assert x in ys && y in xs;
  }

  /** Two outputs of one leader from one state are equal. */
  lemma OutputUnique(dag: Dag, last: map<Author, Round>, leader: Certificate, floor: Round, xs: seq<Certificate>,
                     ys: seq<Certificate>)
    requires Ascending(xs) && Ascending(ys) && DistinctDigests(xs) && DistinctDigests(ys)
    requires ByReference(dag, last, leader, floor, xs) && ByReference(dag, last, leader, floor, ys)
    requires forall c :: c in xs <==> c in ys
    requires forall c :: c in xs ==> floor <= c.Round() <= leader.Round()
    ensures xs == ys
  {
    hide ByReference, OfRound;
    forall k: Round ensures OfRound(xs, k) == OfRound(ys, k) { LevelsUnique(dag, last, leader, floor, xs, ys, k); }
    AscendingByLevels(xs, ys);
  }
}
