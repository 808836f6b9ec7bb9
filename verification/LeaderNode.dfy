/** The Narwhal and Bullshark commit loops: support check, leader walk, sub-dag flattening and
    garbage collection, proved to commit along the chain of `LeaderChain`. */
module LeaderNode {
  import opened Quorums
  import opened ConsensusState
  import opened LeaderChain
  import opened SubDags
  import opened LeaderOutput

  lemma {:induction false} LayerKnown(u: set<Header>, received: set<Header>, x: Header, r: Round)
    requires Known(u, received) && x in received && r <= x.round
    ensures Layer(u, x, r) <= received
    decreases x.round - r
  {
    if r < x.round { LayerKnown(u, received, x, r + 1); }
  }

  // ---------------------------------------------------------------- path search

  /** The stored headers of round `r` referenced from `above`. */
  function StoredBelow(dag: Dag, above: set<Header>, r: Round): set<Header>
    requires r in dag
  {
    set a | a in dag[r] && (exists p :: p in above && dag[r][a].header.id in p.parents) :: dag[r][a].header
  }

  lemma StoredBelowExact(u: set<Header>, dag: Dag, received: set<Header>, last: Round, above: set<Header>, r: Round)
    requires Known(u, received) && Mirrors(dag, received, last) && above <= received && r > last
    ensures Below(u, above, r) != {} ==> r in dag
    ensures r in dag ==> StoredBelow(dag, above, r) == Below(u, above, r)
  {
    forall h | h in Below(u, above, r) ensures r in dag && h in StoredBelow(dag, above, r) {
      var p :| p in above && h.id in p.parents;
      assert h in received;
      assert dag[r][h.author].header == h;
    }
    if r in dag {
      forall h | h in StoredBelow(dag, above, r) ensures h in Below(u, above, r) {
        var a :| a in dag[r] && (exists p :: p in above && dag[r][a].header.id in p.parents) && dag[r][a].header == h;
        assert ChildIn(above, h);
      }
    }
  }

  /** Is there a path from `leader` down to `prev`?  The round lookups cannot fail. */
  method Linked(c: Committee, ghost u: set<Header>, dag: Dag, ghost received: set<Header>, ghost last: Round,
                leader: Header, prev: Header) returns (b: bool)
    requires Certified(c, u) && Known(u, received) && Mirrors(dag, received, last)
    requires leader in received && prev in received && last < prev.round <= leader.round
    ensures b <==> prev in Layer(u, leader, prev.round)
  {
    hide Certified, Known, Mirrors, Below, StoredBelow;
    var parents := {leader};
    var r := leader.round;
    while r > prev.round
      invariant prev.round <= r <= leader.round
      invariant parents == Layer(u, leader, r)
    {
      r := r - 1;
      KnownInside(u, received, leader);
      LayerKnown(u, received, leader, r + 1);
      LayerNonempty(c, u, leader, r);
      StoredBelowExact(u, dag, received, last, parents, r);
      assert r in dag;
      parents := StoredBelow(dag, parents, r);
    }
    b := prev in parents;
  }

  lemma KnownInside(u: set<Header>, received: set<Header>, h: Header)
    requires Known(u, received) && h in received
    ensures h in u
  {
  }

  // ---------------------------------------------------------------- knowing the leader

  /** Every round below a received header is received from a quorum of authors, and stored. */
  lemma RoundFull(c: Committee, u: set<Header>, dag: Dag, received: set<Header>, last: Round, x: Header, r: Round)
    requires Certified(c, u) && Known(u, received) && Mirrors(dag, received, last) && x in received
    requires last < r < x.round
    ensures HasQuorum(c, dag, r)
  {
    hide Certified;
    KnownInside(u, received, x);
    LayerNonempty(c, u, x, r + 1);
    LayerKnown(u, received, x, r + 1);
    LayerInside(u, x, r + 1);
    var h :| h in Layer(u, x, r + 1);
    QuorumAbove(c, u, h);
    ParentsStored(c, u, dag, received, last, h, r);
    WeightAboveZero(c, ParentAuthors(u, h));
    WeightMonotone(c, ParentAuthors(u, h), dag[r].Keys);
  }

  lemma ParentsStored(c: Committee, u: set<Header>, dag: Dag, received: set<Header>, last: Round, h: Header, r: Round)
    requires Certified(c, u) && Known(u, received) && Mirrors(dag, received, last) && h in received && last < r
    requires h.round == r + 1
    ensures forall a :: a in ParentAuthors(u, h) ==> r in dag && a in dag[r]
  {
    forall a | a in ParentAuthors(u, h) ensures r in dag && a in dag[r] {
      var k := ParentWitness(c, u, h, a);
    }
  }

  lemma WeightAboveZero(c: Committee, s: set<Author>)
    requires c.Weight(s) >= c.QuorumThreshold()
    ensures s != {} && exists a :: a in s
  {
    var a := Least(s);
  }

  /** With a coin, the leader of round `r` is known once the round of its shares holds a quorum. */
  method LeaderKnown(c: Committee, coinLag: Option<nat>, dag: Dag, r: Round) returns (b: bool)
    requires WellKeyed(dag)
    ensures b <==> coinLag == None || HasQuorum(c, dag, r + coinLag.value)
  {
    if coinLag == None {
      return true;
    }
    b := RoundHasQuorum(c, dag, r + coinLag.value);
  }

  // ---------------------------------------------------------------- the leader walk

  lemma DescendingAppend(cs: seq<Certificate>, c: Certificate)
    requires Descending(cs) && cs != [] && c.Round() < cs[|cs| - 1].Round()
    ensures Descending(cs + [c])
  {
  }

  /** The uncommitted leaders on the walk back from `leader`, newest first. */
  method OrderLeaders(c: Committee, ghost u: set<Header>, leaderOf: Schedule, coinLag: Option<nat>, dag: Dag,
                      ghost received: set<Header>, last: Round, leader: Certificate, ghost top: Header)
    returns (toCommit: seq<Certificate>)
    requires Certified(c, u) && Known(u, received) && Mirrors(dag, received, last)
    requires top in received && (coinLag.Some? ==> leader.Round() + coinLag.value < top.round)
    requires leader.header in received && last < leader.Round() && Even(last) && Even(leader.Round())
    requires InDag(dag, leader)
    ensures toCommit != [] && toCommit[0] == leader
    ensures Headers(toCommit) == [leader.header] + Walk(u, leaderOf, leader.header, leader.Round() - 2, last)
    ensures forall x :: x in toCommit ==> x.header in received && last < x.Round() <= leader.Round()
    ensures Descending(toCommit) && forall x :: x in toCommit ==> InDag(dag, x)
  {
    hide Certified, Known, Mirrors, Walk, Layer, HasQuorum, WellKeyed, Even, Descending;
    EvenGap(last, leader.Round());
    OneDescends(leader);
    toCommit := [leader];
    var current := leader.header;
    var r := leader.Round() - 2;
    ghost var target := [leader.header] + Walk(u, leaderOf, leader.header, r, last);
    while r >= last + 2
      invariant toCommit != [] && toCommit[0] == leader
      invariant Headers(toCommit) + Walk(u, leaderOf, current, r, last) == target
      invariant forall x :: x in toCommit ==> x.header in received && last < x.Round() <= leader.Round()
      invariant forall x :: x in toCommit ==> InDag(dag, x)
      invariant Descending(toCommit) && toCommit[|toCommit| - 1].header == current
      invariant current in received && r + 2 <= current.round <= leader.Round() && Even(r - last) && r >= last
      decreases r
    {
      KnownInside(u, received, current);
      MirrorsKeyed(dag, received, last);
      var known := LeaderKnown(c, coinLag, dag, r);
      if coinLag.Some? { RoundFull(c, u, dag, received, last, top, r + coinLag.value); }
      if r in dag && known && leaderOf(r) in dag[r] {
        var prev := dag[r][leaderOf(r)];
        MirrorsEntry(dag, received, last, r, leaderOf(r));
        var linked := Linked(c, u, dag, received, last, current, prev.header);
        WalkStep(c, u, leaderOf, dag, received, last, current, r, Some(prev.header));
        if linked {
          assert Headers(toCommit + [prev]) == Headers(toCommit) + [prev.header];
          DescendingAppend(toCommit, prev);
          toCommit := toCommit + [prev];
          current := prev.header;
        }
      } else {
        WalkStep(c, u, leaderOf, dag, received, last, current, r, None);
      }
      EvenSteps(r - last);
      r := r - 2;
    }
    EvenSteps(r - last);
    WalkEnd(u, leaderOf, current, r, last);
    assert Headers(toCommit) + [] == Headers(toCommit);
  }

  lemma EvenSteps(k: int)
    requires Even(k)
    ensures Even(k - 2) && (0 <= k < 2 ==> k == 0)
  {
  }

  lemma OneDescends(c: Certificate)
    ensures Descending([c])
  {
  }

  lemma WalkEnd(u: set<Header>, leaderOf: Schedule, x: Header, r: int, floor: Round)
    requires r <= floor
    ensures Walk(u, leaderOf, x, r, floor) == []
  {
  }

  lemma MirrorsKeyed(dag: Dag, received: set<Header>, last: Round)
    requires Mirrors(dag, received, last)
    ensures WellKeyed(dag)
  {
  }

  lemma MirrorsEntry(dag: Dag, received: set<Header>, last: Round, r: Round, a: Author)
    requires Mirrors(dag, received, last) && r in dag && a in dag[r]
    ensures var h := dag[r][a].header; h in received && h.round == r && h.author == a
  {
  }

  /** One step of the walk as the node sees it: the stored leader of the round, if any. */
  lemma WalkStep(c: Committee, u: set<Header>, leaderOf: Schedule, dag: Dag, received: set<Header>, last: Round,
                 x: Header, r: Round, prev: Option<Header>)
    requires Certified(c, u) && Known(u, received) && Mirrors(dag, received, last)
    requires x in received && last < r < x.round
    requires prev.Some? ==> prev.value in received && prev.value.round == r && prev.value.author == leaderOf(r)
    requires prev == None ==> !(r in dag && leaderOf(r) in dag[r])
    ensures Walk(u, leaderOf, x, r, last) ==
            if prev.Some? && prev.value in Layer(u, x, r)
            then [prev.value] + Walk(u, leaderOf, prev.value, r - 2, last)
            else Walk(u, leaderOf, x, r - 2, last)
  {
    hide Certified, Layer;
    KnownInside(u, received, x);
    LayerKnown(u, received, x, r);
    LayerInside(u, x, r);
    if prev.Some? && prev.value in Layer(u, x, r) {
      WalkMeets(c, u, leaderOf, x, r, last, prev.value);
    } else if prev.Some? {
      forall h | h in Layer(u, x, r) && h.author == leaderOf(r) ensures h == prev.value {
        OnePerSlot(c, u, h, prev.value);
      }
    }
  }

  // ---------------------------------------------------------------- the commit loop

  /** The round of the last committed leader. */
  ghost function PointRound(last: Option<Header>): Round { if last.Some? then last.value.round else 0 }

  /** A certificate of round `round` triggers the leader `lag` rounds below it: 3 for Narwhal,
      1 for Bullshark. */
  ghost predicate Commits(c: Committee, leaderOf: Schedule, received: set<Header>, last: Round, lag: nat,
                          round: Round, l: Header) {
    && l in received && l.round + lag == round && l.round >= 2 && Even(l.round) && l.round > last
    && l.author == leaderOf(l.round)
    && Supported(c, received, l)
  }

  /** The trigger, on rounds and stake: the scheduled leader of an even round from 2 on, `lag` rounds below
      and not yet committed, with more than a third of the stake referencing it in the next round. */
  lemma CommitsMeans(c: Committee, leaderOf: Schedule, received: set<Header>, last: Round, lag: nat, round: Round,
                     l: Header, supporters: set<Author>)
    requires forall a :: a in supporters <==>
               exists h :: h in received && h.author == a && h.round == l.round + 1 && l.id in h.parents
    ensures Commits(c, leaderOf, received, last, lag, round, l) <==>
            && l in received && l.author == leaderOf(l.round) && l.round + lag == round
            && l.round >= 2 && l.round % 2 == 0 && l.round > last
            && c.Weight(supporters) >= (c.Total() + 2) / 3
  {
    hide Committee.Weight;
    assert supporters == Supporters(received, l);
  }

  ghost predicate GenesisEntry(u: set<Header>, a: Author, c: Certificate) {
    c.header in u && c.Round() == 0 && c.Origin() == a
  }

  lemma GenesisKnown(c: Committee, u: set<Header>, genesis: map<Author, Certificate>)
    requires Certified(c, u) && forall a :: a in genesis ==> GenesisEntry(u, a, genesis[a])
    ensures var received := set a | a in genesis :: genesis[a].header;
            Known(u, received) && Mirrors(map[0 := genesis], received, 0)
  {
  }

  class Node {
    const committee: Committee
    const leaderOf: Schedule
    const lag: nat
    /** With a coin, its shares for a leader are in the round this far above: 2 for Narwhal, 0 for
        Bullshark. */
    const coinLag: Option<nat>
    const gcDepth: nat
    /** Bullshark drops rounds below the collection depth from its output. */
    const trim: bool
    const state: State
    ghost const u: set<Header>
    ghost var received: set<Header>
    ghost var last: Option<Header>
    ghost var leaders: seq<Header>
    /** Everything output, and whether no output certificate was ever handed in again from before
        its author's last commit. */
    ghost var output: seq<Certificate>
    ghost var unreplayed: bool

    ghost function Now(): Snapshot
      reads state
    {
      Snapshot(state.dag, state.lastCommitted, state.lastCommittedRound)
    }

    /** The output so far, and what it says about the state. */
    ghost predicate Ledger()
      reads this, state
    {
      && AllReceived(received, output) && Accounted(state.lastCommitted, output)
      && (unreplayed ==> DistinctDigests(output) && NoneRestored(state.dag, state.lastCommitted, output))
    }

    ghost predicate Valid()
      reads this, state
    {
      && Ledger()
      && Certified(committee, u) && Known(u, received)
      && Mirrors(state.dag, received, state.lastCommittedRound)
      && AtMost(state.lastCommitted, state.lastCommittedRound)
      && CommitPoint(committee, u, leaderOf, last)
      && state.lastCommittedRound == PointRound(last)
      && leaders == CommittedChain(u, leaderOf, last)
      && lag >= 1 && (coinLag.Some? ==> coinLag.value < lag)
    }

    constructor (committee: Committee, leaderOf: Schedule, lag: nat, coinLag: Option<nat>, gcDepth: nat, trim: bool,
                 genesis: map<Author, Certificate>, ghost u: set<Header>)
      requires Certified(committee, u) && lag >= 1 && (coinLag.Some? ==> coinLag.value < lag)
      requires forall a :: a in genesis ==> GenesisEntry(u, a, genesis[a])
      ensures Valid() && fresh(state) && this.u == u && leaders == [] && last == None
      ensures this.committee == committee && this.leaderOf == leaderOf && this.lag == lag
      ensures this.coinLag == coinLag && this.gcDepth == gcDepth && this.trim == trim
      ensures received == set a | a in genesis :: genesis[a].header
      ensures Now() == Snapshot(map[0 := genesis], RoundsOf(genesis), 0) && output == [] && unreplayed
    {
      hide Certified;
      this.committee, this.leaderOf, this.lag, this.coinLag := committee, leaderOf, lag, coinLag;
      this.gcDepth, this.trim := gcDepth, trim;
      output, unreplayed := [], true;
      this.state := new State(genesis);
      this.u := u;
      received := set a | a in genesis :: genesis[a].header;
      last, leaders := None, [];
      GenesisKnown(committee, u, genesis);
    }

    /** Stake of the stored next-round certificates that reference the leader. */
    method SupportStake(leader: Certificate) returns (stake: nat)
      requires Valid() && leader.header in received && leader.Round() + 1 > state.lastCommittedRound
      requires leader.Round() + 1 in state.dag
      ensures stake == committee.Weight(Supporters(received, leader.header))
    {
      hide Certified, Known, CommitPoint;
      var r := leader.Round() + 1;
      var byAuthor := state.dag[r];
      stake := 0;
      var rest := byAuthor.Keys;
      ghost var done: set<Author> := {};
      ghost var tally: set<Author> := {};
      while rest != {}
        invariant done + rest == byAuthor.Keys && done !! rest
        invariant tally == set a | a in done && leader.Digest() in byAuthor[a].header.parents
        invariant stake == committee.Weight(tally)
        decreases rest
      {
        var a := Least(rest);
        if leader.Digest() in byAuthor[a].header.parents {
          WeightAdd(committee, tally, a);
          stake := stake + committee.Stake(a);
          tally := tally + {a};
        }
        rest, done := rest - {a}, done + {a};
      }
      assert done == byAuthor.Keys;
      SupportersStored(state.dag, received, state.lastCommittedRound, leader, tally);
    }

    /** Handle one certificate whose history has already been handled. */
    method Process(certificate: Certificate) returns (sequence: seq<Certificate>)
      requires Valid() && certificate.header in u && certificate.Round() >= 1
      requires forall k :: k in u && k.id in certificate.header.parents ==> k in received
      modifies this`received, this`last, this`leaders, this`output, this`unreplayed, state
      ensures Valid() && received == old(received) + {certificate.header}
      ensures output == old(output) + sequence
      ensures unreplayed == (old(unreplayed) && !Restores(old(state.lastCommitted), old(output), certificate))
      ensures last == old(last) ==>
                && leaders == old(leaders) && sequence == [] && Now() == old(WithStored(Now(), certificate))
                && forall l :: !Commits(committee, leaderOf, received, PointRound(last), lag, certificate.Round(), l)
      ensures last != old(last) ==>
                && last.Some?
                && Commits(committee, leaderOf, received, PointRound(old(last)), lag, certificate.Round(), last.value)
                && leaders == old(leaders) + Segment(u, leaderOf, last.value, PointRound(old(last)))
                && CommitsChain(u, leaderOf, gcDepth, trim, old(WithStored(Now(), certificate)), last.value, sequence,
                    Now())
                && InTurn(sequence, Segment(u, leaderOf, last.value, PointRound(old(last))))
      ensures last != old(last) && old(DistinctDigests(output)) ==>
                (!DistinctDigests(output) <==>
                 Repeats(gcDepth, trim, old(WithStored(Now(), certificate)),
                         Segment(u, leaderOf, last.value, PointRound(old(last))), old(output)))
    {
      hide Certified, Known, Mirrors, AtMost, Chain, Segment, Supported, Supporters, CommitsChain, Node.Ledger;
      hide HasQuorum, Put;
      sequence := [];
      Store(certificate);
      var round := certificate.Round();
      if round < lag + 2 || (round - lag) % 2 != 0 {
        return;
      }
      var leaderRound := round - lag;
      if leaderRound <= state.lastCommittedRound {
        return;
      }
      MirrorsKeyed(state.dag, received, state.lastCommittedRound);
      var known := LeaderKnown(committee, coinLag, state.dag, leaderRound);
      if coinLag.Some? {
        RoundFull(committee, u, state.dag, received, state.lastCommittedRound, certificate.header,
                  leaderRound + coinLag.value);
      }
      if !(leaderRound in state.dag && known && leaderOf(leaderRound) in state.dag[leaderRound]) {
        LeaderMissing(committee, leaderOf, state.dag, received, state.lastCommittedRound, lag, round);
        return;
      }
      var leader := state.dag[leaderRound][leaderOf(leaderRound)];
      MirrorsEntry(state.dag, received, state.lastCommittedRound, leaderRound, leaderOf(leaderRound));
      HistoryStored(committee, u, state.dag, received, state.lastCommittedRound, certificate.header, leaderRound + 1);
      var stake := SupportStake(leader);
      KnownInside(u, received, leader.header);
      LeaderStored(committee, u, leaderOf, received, state.lastCommittedRound, lag, round, leader.header);
      SupportDecided(committee, received, leader.header);
      if stake < committee.ValidityThreshold() {
        return;
      }
      sequence := Commit(leader, certificate.header);
    }

    /** Store a certificate, keeping track of whether it brings back something already output. */
    method Store(certificate: Certificate)
      requires Valid() && certificate.header in u
      requires forall k :: k in u && k.id in certificate.header.parents ==> k in received
      modifies this`received, this`unreplayed, state`dag
      ensures Valid() && received == old(received) + {certificate.header}
      ensures Now() == old(WithStored(Now(), certificate))
      ensures unreplayed == (old(unreplayed) && !Restores(old(state.lastCommitted), old(output), certificate))
    {
      hide Certified, Mirrors, AtMost, CommitPoint, CommittedChain, Accounted, NoneRestored, DistinctDigests;
      hide Restores, Put;
      MirrorsPut(committee, u, state.dag, received, state.lastCommittedRound, certificate);
      if unreplayed { PutRestores(state.dag, state.lastCommitted, output, certificate); }
      unreplayed := unreplayed && !Restores(state.lastCommitted, output, certificate);
      state.dag := Put(state.dag, certificate);
      received := received + {certificate.header};
    }

    /** Commit a supported leader with the earlier leaders of its walk. */
    method Commit(leader: Certificate, ghost top: Header) returns (sequence: seq<Certificate>)
      requires Valid() && leader.header in received && top in received && top.round == leader.Round() + lag
      requires InDag(state.dag, leader)
      requires CommitPoint(committee, u, leaderOf, Some(leader.header)) && leader.Round() > state.lastCommittedRound
      modifies this`last, this`leaders, this`output, state
      ensures Valid() && last == Some(leader.header) && output == old(output) + sequence
      ensures leaders == old(leaders) + Segment(u, leaderOf, leader.header, PointRound(old(last)))
      ensures CommitsChain(u, leaderOf, gcDepth, trim, old(Now()), leader.header, sequence, Now())
      ensures InTurn(sequence, Segment(u, leaderOf, leader.header, PointRound(old(last))))
      ensures old(DistinctDigests(output)) ==>
                (!DistinctDigests(output) <==>
                 Repeats(gcDepth, trim, old(Now()), Segment(u, leaderOf, leader.header, PointRound(old(last))),
                     old(output)))
    {
      hide Certified, Known, Mirrors, AtMost, Supported, Walk, Reversed, Descending, LeaderBatches;
      hide Accounted, NoneRestored, DistinctDigests, AllReceived, OneHeaderPerDigest;
      hide Headers, InTurn, Segment, CommitsChain, Even, Committee.Weight;
      ghost var before := Now();
      PointsEven(committee, u, leaderOf, last, leader.header);
      var toCommit := OrderLeaders(committee, u, leaderOf, coinLag, state.dag, received, state.lastCommittedRound,
          leader, top);
      NextChain(committee, u, leaderOf, last, leader.header);
      sequence := CommitLeaders(toCommit);
      ReceivedUnique(committee, u, received);
      BatchesAreNew(gcDepth, trim, before, toCommit, sequence, Now(), received, output);
      if DistinctDigests(output) {
        ChainRepeats(committee, u, leaderOf, gcDepth, trim, before, leader.header, toCommit, sequence, Now(),
            received, output);
      }
      ChainCommitted(u, leaderOf, gcDepth, trim, before, leader.header, toCommit, sequence, Now());
      leaders := leaders + Segment(u, leaderOf, leader.header, before.round);
      output := output + sequence;
      last := Some(leader.header);
    }

    /** Commit the leaders of a walk, oldest first. */
    method CommitLeaders(toCommit: seq<Certificate>) returns (sequence: seq<Certificate>)
      requires Certified(committee, u) && Known(u, received) && Mirrors(state.dag, received, state.lastCommittedRound)
      requires AtMost(state.lastCommitted, state.lastCommittedRound) && Descending(toCommit)
      requires forall x :: x in toCommit ==> x.header in received && x.Round() > state.lastCommittedRound
      modifies state
      ensures LeaderBatches(gcDepth, trim, old(Now()), toCommit, sequence, Now())
    {
      hide Certified, Known, Mirrors, AtMost, Descending, LeaderBatches, LeaderBatch;
      ghost var before := Now();
      sequence := [];
      NoBatches(gcDepth, trim, before, toCommit);
      var i := |toCommit|;
      while i > 0
        invariant 0 <= i <= |toCommit|
        invariant state.lastCommittedRound == if i == |toCommit| then before.round else toCommit[i].Round()
        invariant Mirrors(state.dag, received, state.lastCommittedRound)
        invariant AtMost(state.lastCommitted, state.lastCommittedRound)
        invariant LeaderBatches(gcDepth, trim, before, toCommit[i..], sequence, Now())
      {
        i := i - 1;
        assert toCommit[i] in toCommit;
        DescendingPair(toCommit, i);
        ghost var between := Now();
        var batch := CommitOne(toCommit[i]);
        NextBatch(gcDepth, trim, before, toCommit[i + 1..], sequence, between, toCommit[i], batch, Now());
        assert [toCommit[i]] + toCommit[i + 1..] == toCommit[i..];
        sequence := sequence + batch;
      }
      assert toCommit[0..] == toCommit;
    }

    /** Flatten one leader's sub-dag, as stored, and update the state with it. */
    method CommitOne(x: Certificate) returns (batch: seq<Certificate>)
      requires Certified(committee, u) && Known(u, received) && Mirrors(state.dag, received, state.lastCommittedRound)
      requires x.header in received && x.Round() > state.lastCommittedRound
      requires AtMost(state.lastCommitted, state.lastCommittedRound)
      modifies state
      ensures LeaderBatch(gcDepth, trim, old(Now()), x, batch, Now())
      ensures Mirrors(state.dag, received, x.Round()) && AtMost(state.lastCommitted, x.Round())
      ensures state.lastCommittedRound == x.Round()
    {
      hide Certified, Mirrors, OnePerDigest, Grounded, SubDag, Ascending, KeepFrom, Cleaned, RaiseAll, ByReference;
      ghost var before := Now();
      KnownInside(u, received, x.header);
      MirrorsGrounded(committee, u, state.dag, received, state.lastCommittedRound, x);
      MirrorsKeyed(state.dag, received, state.lastCommittedRound);
      batch := OrderDag(state.dag, state.lastCommitted, x, KeepFloor(trim, gcDepth, state.lastCommittedRound));
      UpdateAll(state, batch, gcDepth);
      BatchAdvances(gcDepth, trim, before, x, batch, Now(), received);
    }

    ghost function Here(): Moment
      reads this, state
    {
      Moment(Now(), received, last)
    }

    /** What handling certificate `c` does: store it and, exactly if its round triggers a supported
        uncommitted leader, commit the walk of that leader. */
    ghost predicate Handles(s: Moment, c: Certificate, sequence: seq<Certificate>, t: Moment) {
      && t.received == s.received + {c.header}
      && if t.last == s.last then
           && sequence == [] && t.now == WithStored(s.now, c)
           && forall l :: !Commits(committee, leaderOf, t.received, PointRound(s.last), lag, c.Round(), l)
         else
           && t.last.Some?
           && Commits(committee, leaderOf, t.received, PointRound(s.last), lag, c.Round(), t.last.value)
           && CommitsChain(u, leaderOf, gcDepth, trim, WithStored(s.now, c), t.last.value, sequence, t.now)
    }

    /** Handling a whole stream, one certificate after the other. */
    ghost predicate HandlesAll(s: Moment, stream: seq<Certificate>, sent: seq<Certificate>, t: Moment)
      decreases |stream|
    {
      if stream == [] then sent == [] && s == t
      else exists k, m :: HandlesLast(s, stream, sent, t, k, m)
    }

    ghost predicate HandlesLast(s: Moment, stream: seq<Certificate>, sent: seq<Certificate>, t: Moment, k: nat,
                                m: Moment)
      requires stream != []
      decreases |stream|, 0
    {
      && k <= |sent| && HandlesAll(s, stream[..|stream| - 1], sent[..k], m)
      && Handles(m, stream[|stream| - 1], sent[k..], t)
    }

    lemma HandlesNothing(s: Moment, stream: seq<Certificate>)
      requires stream == []
      ensures HandlesAll(s, stream, [], s)
    {
    }

    lemma HandlesNext(s: Moment, stream: seq<Certificate>, sent: seq<Certificate>, m: Moment, c: Certificate,
                      sequence: seq<Certificate>, t: Moment)
      requires HandlesAll(s, stream, sent, m) && Handles(m, c, sequence, t)
      ensures HandlesAll(s, stream + [c], sent + sequence, t)
    {
      hide Node.Handles;
      var all, k := sent + sequence, |sent|;
      assert (stream + [c])[..|stream|] == stream && all[..k] == sent && all[k..] == sequence;
      assert HandlesLast(s, stream + [c], all, t, k, m);
    }

    /** One turn of the main loop. */
    method HandleOne(certificate: Certificate) returns (sequence: seq<Certificate>)
      requires Valid() && certificate.header in u && certificate.Round() >= 1
      requires forall k :: k in u && k.id in certificate.header.parents ==> k in received
      modifies this`received, this`last, this`leaders, this`output, this`unreplayed, state
      ensures Valid() && received == old(received) + {certificate.header}
      ensures output == old(output) + sequence && old(leaders) <= leaders
      ensures Handles(old(Here()), certificate, sequence, Here())
      ensures old(unreplayed) && certificate.header !in old(received) ==> unreplayed
    {
      hide Node.Valid, Certified, Known, Mirrors, Commits, CommitsChain, DistinctDigests, Restores, WithStored, Segment;
      hide Repeats, InTurn;
      if certificate.header !in received { NewIsNoReplay(this, certificate); }
      sequence := Process(certificate);
    }

    /** Any stream, each certificate after its history: the certificates are handled one by one, and
        as long as no output certificate is handed in again from before its author's last commit,
        nothing is output twice. */
    method Run(stream: seq<Certificate>) returns (sent: seq<Certificate>)
      requires Valid() && InHistoryOrder(u, received, stream)
      modifies this`received, this`last, this`leaders, this`output, this`unreplayed, state
      ensures Valid() && output == old(output) + sent && old(leaders) <= leaders
      ensures HandlesAll(old(Here()), stream, sent, Here())
      ensures received == old(received) + HeaderSet(stream)
      ensures unreplayed ==> DistinctDigests(output)
      ensures old(unreplayed) && FirstTime(old(received), stream) ==> unreplayed
    {
      hide Node.Valid, Node.Handles, Node.HandlesAll, DistinctDigests, HeaderSet;
      ghost var start := Here();
      sent := [];
      HandlesNothing(start, stream[..0]);
      HeaderSetNext([], stream[..0]);
      var i := 0;
      assert stream[0..] == stream;
      while i < |stream|
        invariant 0 <= i <= |stream| && Valid() && InHistoryOrder(u, received, stream[i..])
        invariant output == old(output) + sent && old(leaders) <= leaders
        invariant HandlesAll(start, stream[..i], sent, Here())
        invariant received == old(received) + HeaderSet(stream[..i])
        invariant old(unreplayed) && FirstTime(old(received), stream) ==> unreplayed && FirstTime(received, stream[i..])
      {
        assert stream[i..][1..] == stream[i + 1..];
        ghost var before := Here();
        var batch := HandleOne(stream[i]);
        HandlesNext(start, stream[..i], sent, before, stream[i], batch, Here());
        assert stream[..i] + [stream[i]] == stream[..i + 1];
        HeaderSetNext(stream[..i], [stream[i]]);
        sent := sent + batch;
        i := i + 1;
      }
      assert stream[..i] == stream;
      OutputDistinct(this);
    }
  }

  ghost function HeaderSet(cs: seq<Certificate>): set<Header> { set c | c in cs :: c.header }

  lemma HeaderSetNext(cs: seq<Certificate>, ds: seq<Certificate>)
    requires |ds| <= 1
    ensures HeaderSet([]) == {}
    ensures HeaderSet(cs + ds) == HeaderSet(cs) + if ds == [] then {} else {ds[0].header}
  {
    forall c ensures c in cs + ds <==> c in cs || (ds != [] && c == ds[0]) {}
    if ds == [] { assert cs + ds == cs; } else { assert ds[0] in cs + ds; }
  }

  /** What a node knows at one moment. */
  datatype Moment = Moment(now: Snapshot, received: set<Header>, last: Option<Header>)

  /** The state with one more certificate stored. */
  ghost function WithStored(s: Snapshot, c: Certificate): Snapshot { s.(dag := Put(s.dag, c)) }

  /** From state `s`, leader `l` and the uncommitted leaders of its walk are committed in turn. */
  ghost predicate CommitsChain(u: set<Header>, leaderOf: Schedule, gcDepth: nat, trim: bool, s: Snapshot, l: Header,
                               sequence: seq<Certificate>, t: Snapshot) {
    exists xs ::
      && Headers(xs) == [l] + Walk(u, leaderOf, l, l.round - 2, s.round)
      && LeaderBatches(gcDepth, trim, s, xs, sequence, t)
  }

  lemma ChainCommitted(u: set<Header>, leaderOf: Schedule, gcDepth: nat, trim: bool, s: Snapshot, l: Header,
                       xs: seq<Certificate>, sequence: seq<Certificate>, t: Snapshot)
    requires Headers(xs) == [l] + Walk(u, leaderOf, l, l.round - 2, s.round)
    requires LeaderBatches(gcDepth, trim, s, xs, sequence, t) && InTurn(sequence, Reversed(Headers(xs)))
    ensures CommitsChain(u, leaderOf, gcDepth, trim, s, l, sequence, t)
    ensures InTurn(sequence, Segment(u, leaderOf, l, s.round))
  {
    hide Walk, LeaderBatches, InTurn, Reversed, Headers;
  }

  /** Committing a later leader extends the committed chain, from whatever was committed last. */
  lemma NextChain(c: Committee, u: set<Header>, leaderOf: Schedule, last: Option<Header>, l: Header)
    requires Certified(c, u) && CommitPoint(c, u, leaderOf, last) && CommitPoint(c, u, leaderOf, Some(l))
    requires l.round > PointRound(last)
    ensures CommittedChain(u, leaderOf, Some(l)) ==
            CommittedChain(u, leaderOf, last) + Segment(u, leaderOf, l, PointRound(last))
  {
    hide Certified, Supported, Walk, Reversed;
    if last.Some? {
      ChainExtends(c, u, leaderOf, last.value, l);
    } else {
      assert [] + Segment(u, leaderOf, l, 0) == Segment(u, leaderOf, l, 0);
    }
  }

  lemma PointsEven(c: Committee, u: set<Header>, leaderOf: Schedule, last: Option<Header>, l: Header)
    requires CommitPoint(c, u, leaderOf, last) && CommitPoint(c, u, leaderOf, Some(l))
    ensures Even(PointRound(last)) && Even(l.round)
  {
  }

  /** From the first of these leaders, as stored, a certificate brought back is reached. */
  ghost predicate Repeats(gcDepth: nat, trim: bool, s: Snapshot, leaders: seq<Header>, output: seq<Certificate>) {
    exists x :: InDag(s.dag, x) && leaders != [] && x.header == leaders[0] && BringsBack(gcDepth, trim, s, x, output)
  }

  lemma ChainRepeats(c: Committee, u: set<Header>, leaderOf: Schedule, gcDepth: nat, trim: bool, s: Snapshot, l: Header,
                     xs: seq<Certificate>, sequence: seq<Certificate>, t: Snapshot, received: set<Header>,
                     output: seq<Certificate>)
    requires Certified(c, u) && Known(u, received) && xs != [] && forall x :: x in xs ==> InDag(s.dag, x)
    requires Headers(xs) == [l] + Walk(u, leaderOf, l, l.round - 2, s.round)
    requires LeaderBatches(gcDepth, trim, s, xs, sequence, t) && Descending(xs) && DistinctDigests(output)
    requires Mirrors(s.dag, received, s.round) && AtMost(s.last, s.round)
    requires forall x :: x in xs ==> x.header in received && x.Round() > s.round
    requires OneHeaderPerDigest(received) && AllReceived(received, output) && Accounted(s.last, output)
    ensures !DistinctDigests(output + sequence) <==>
            Repeats(gcDepth, trim, s, Segment(u, leaderOf, l, s.round), output)
  {
    hide Certified, Mirrors, LeaderBatches, DistinctDigests, AtMost, Accounted, AllReceived, OneHeaderPerDigest, Walk;
    hide BringsBack, OnePerDigest, Grounded, Descending, Reversed;
    var oldest := xs[|xs| - 1];
    assert oldest in xs;
    KnownInside(u, received, oldest.header);
    MirrorsGrounded(c, u, s.dag, received, s.round, oldest);
    CommitRepeatsExactly(gcDepth, trim, s, xs, sequence, t, received, output);
    OldestFirst(Headers(xs));
  }

  lemma {:induction false} OldestFirst(hs: seq<Header>)
    requires hs != []
    ensures Reversed(hs) != [] && Reversed(hs)[0] == hs[|hs| - 1]
  {
    if |hs| > 1 { OldestFirst(hs[1..]); }
  }

  /** Each certificate is certified and comes after its history. */
  ghost predicate InHistoryOrder(u: set<Header>, received: set<Header>, stream: seq<Certificate>)
    decreases |stream|
  {
    stream == [] ||
    (&& stream[0].header in u && stream[0].Round() >= 1
     && (forall k :: k in u && k.id in stream[0].header.parents ==> k in received)
     && InHistoryOrder(u, received + {stream[0].header}, stream[1..]))
  }

  /** No certificate is handed in twice. */
  ghost predicate FirstTime(received: set<Header>, stream: seq<Certificate>)
    decreases |stream|
  {
    stream == [] || (stream[0].header !in received && FirstTime(received + {stream[0].header}, stream[1..]))
  }

  lemma NewIsNoReplay(n: Node, c: Certificate)
    requires n.Valid() && c.header in n.u && c.header !in n.received
    ensures !Restores(n.state.lastCommitted, n.output, c)
  {
    hide Mirrors, AtMost, CommitPoint, CommittedChain, Accounted;
    forall o | o in n.output ensures o.Digest() != c.Digest() { assert o.header in n.received; }
  }

  lemma OutputDistinct(n: Node)
    requires n.Valid()
    ensures n.unreplayed ==> DistinctDigests(n.output)
  {
  }

  lemma ReceivedUnique(c: Committee, u: set<Header>, received: set<Header>)
    requires Certified(c, u) && Known(u, received)
    ensures OneHeaderPerDigest(received)
  {
  }

  lemma NoBatches(gcDepth: nat, trim: bool, s: Snapshot, xs: seq<Certificate>)
    ensures LeaderBatches(gcDepth, trim, s, xs[|xs|..], [], s)
  {
  }

  lemma DescendingPair(cs: seq<Certificate>, i: nat)
    requires Descending(cs) && i < |cs|
    ensures i + 1 < |cs| ==> cs[i].Round() > cs[i + 1].Round()
  {
  }

  /** The leader sequences of any two nodes over one certified graph are prefix-comparable, at
      any two moments of their runs. */
  lemma NodesAgree(a: Node, b: Node)
    requires a.Valid() && b.Valid() && a.u == b.u && a.leaderOf == b.leaderOf && a.committee == b.committee
    ensures a.leaders <= b.leaders || b.leaders <= a.leaders
  {
    hide Certified, Known, Mirrors, AtMost, CommitPoint, CommittedChain;
    LeaderSequencesAgree(a.committee, a.u, a.leaderOf, a.last, b.last);
  }

  lemma SupportersStored(dag: Dag, received: set<Header>, last: Round, leader: Certificate, tally: set<Author>)
    requires Mirrors(dag, received, last) && leader.Round() + 1 > last && leader.Round() + 1 in dag
    requires var d := dag[leader.Round() + 1]; tally == set a | a in d && leader.Digest() in d[a].header.parents
    ensures tally == Supporters(received, leader.header)
  {
    var d := dag[leader.Round() + 1];
    forall a | a in Supporters(received, leader.header) ensures a in tally {
      var h :| h in received && h.round == leader.Round() + 1 && leader.Digest() in h.parents && h.author == a;
      assert d[a].header == h;
    }
    forall a | a in tally ensures a in Supporters(received, leader.header) {
      assert d[a].header in received;
    }
  }

  lemma HistoryStored(c: Committee, u: set<Header>, dag: Dag, received: set<Header>, last: Round, x: Header, r: Round)
    requires Certified(c, u) && Known(u, received) && Mirrors(dag, received, last) && x in received
    requires last < r <= x.round
    ensures r in dag
  {
    hide Certified;
    LayerNonempty(c, u, x, r);
    LayerKnown(u, received, x, r);
    LayerInside(u, x, r);
    var h :| h in Layer(u, x, r);
  }

  lemma LeaderMissing(c: Committee, leaderOf: Schedule, dag: Dag, received: set<Header>, last: Round, lag: nat,
                      round: Round)
    requires Mirrors(dag, received, last) && round >= lag
    requires !((round - lag) in dag && leaderOf(round - lag) in dag[round - lag])
    ensures forall l :: !Commits(c, leaderOf, received, last, lag, round, l)
  {
  }

  lemma LeaderStored(c: Committee, u: set<Header>, leaderOf: Schedule, received: set<Header>, last: Round, lag: nat,
                     round: Round, l: Header)
    requires Certified(c, u) && Known(u, received) && l in received && l.round + lag == round
    requires l.author == leaderOf(l.round)
    ensures forall k :: Commits(c, leaderOf, received, last, lag, round, k) ==> k == l
    ensures Supported(c, received, l) ==> Supported(c, u, l)
  {
    forall k | Commits(c, leaderOf, received, last, lag, round, k) ensures k == l { OnePerSlot(c, u, k, l); }
    WeightMonotone(c, Supporters(received, l), Supporters(u, l));
  }

  lemma SupportDecided(c: Committee, received: set<Header>, l: Header)
    ensures Supported(c, received, l) <==> c.Weight(Supporters(received, l)) >= c.ValidityThreshold()
  {
  }
}
