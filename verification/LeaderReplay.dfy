/** The equality comparison in the flattening matters: a certificate that comes back after its
    author has committed past it is output again, in Bullshark and in Narwhal. */
module LeaderReplay {
  import opened Quorums
  import opened ConsensusState
  import opened LeaderChain
  import opened SubDags
  import opened LeaderOutput
  import opened LeaderNode

  // ---------------------------------------------------------------- the certified graph

  /** Author 0 leads every round and references its own chain; in round 4 also author 1. */
  function A(r: nat): Header {
    Header(r, 0, r, if r == 0 then {} else if r == 4 then {3, 13} else {r - 1}, {}, None)
  }

  /** Author 1 has blocks in rounds 0, 2 and 3 only. */
  function B(r: nat): Header {
    Header(10 + r, 1, r, if r == 2 then {1} else if r == 3 then {2, 12} else {}, {}, None)
  }

  function Zero(): Schedule { _ => 0 }

  function Plain(h: Header): Certificate { Certificate(h, []) }

  function All(): set<Header> { {A(0), A(1), A(2), A(3), A(4), A(5), A(6), A(7), B(0), B(2), B(3)} }

  function Genesis(): map<Author, Certificate> { map[0 := Plain(A(0)), 1 := Plain(B(0))] }

  /** Members of the graph, by identifier. */
  ghost predicate Member(h: Header) {
    (h.id <= 7 && h == A(h.id)) || (h.id == 10 && h == B(0)) || (h.id == 12 && h == B(2)) || (h.id == 13 && h == B(3))
  }

  lemma AllMembers()
    ensures forall h :: h in All() <==> Member(h)
  {
    forall h | Member(h) ensures h in All() {
      assert h.id <= 7 ==>
        h.id == 0 || h.id == 1 || h.id == 2 || h.id == 3 || h.id == 4 || h.id == 5 || h.id == 6 || h.id == 7;
    }
  }

  lemma AllParents(h: Header)
    requires h in All() && h.round > 0
    ensures Uneven().Weight(ParentAuthors(All(), h)) >= Uneven().QuorumThreshold()
  {
    hide All, Committee.Weight, Committee.QuorumThreshold, Uneven;
    AllMembers();
    UnevenWeights();
    assert Member(A(h.round - 1)) && A(h.round - 1).id in h.parents;
    assert 0 in ParentAuthors(All(), h);
    WeightMonotone(Uneven(), {0}, ParentAuthors(All(), h));
  }

  lemma MemberPair(h: Header, k: Header)
    requires Member(h) && Member(k)
    ensures h.id == k.id ==> h == k
    ensures h.author == k.author && h.round == k.round ==> h == k
    ensures k.id in h.parents ==> k.round + 1 == h.round
  {
  }

  lemma MemberGenesis(h: Header)
    requires Member(h) && h.round == 0
    ensures h.parents == {}
  {
  }

  lemma AllCertified()
    ensures Certified(Uneven(), All())
  {
    hide All, ParentAuthors, Committee.Weight, Committee.QuorumThreshold, Uneven, Member;
    AllMembers();
    forall h, k | h in All() && k in All()
      ensures h.id == k.id ==> h == k
      ensures h.author == k.author && h.round == k.round ==> h == k
      ensures k.id in h.parents ==> k.round + 1 == h.round
    {
      MemberPair(h, k);
    }
    forall h | h in All() && h.round == 0 ensures h.parents == {} { MemberGenesis(h); }
    forall h | h in All() && h.round > 0
      ensures Uneven().Weight(ParentAuthors(All(), h)) >= Uneven().QuorumThreshold()
    {
      AllParents(h);
    }
  }

  // ---------------------------------------------------------------- handing in certificates

  lemma PutKeeps(dag: Dag, c: Certificate, y: Certificate)
    requires InDag(dag, y) && (y.Round() != c.Round() || y.Origin() != c.Origin())
    ensures InDag(Put(dag, c), y)
  {
  }

  lemma PutHolds(dag: Dag, c: Certificate)
    ensures InDag(Put(dag, c), c)
  {
  }

  /** A node of the example. */
  ghost predicate Follows(node: Node, lag: nat, gcDepth: nat, trim: bool) {
    && node.lag == lag && node.committee == Uneven() && node.leaderOf == Zero() && node.u == All()
    && node.gcDepth == gcDepth && node.trim == trim
  }

  /** Hand in a certificate whose round triggers no new leader. */
  method HandIn(node: Node, c: Certificate)
    requires node.Valid() && node.lag % 2 == 1 && c.header in node.u && c.Round() >= 1
    requires forall k :: k in node.u && k.id in c.header.parents ==> k in node.received
    requires c.Round() % 2 == 0 || c.Round() <= PointRound(node.last) + node.lag || c.Round() < node.lag + 2
    modifies node`received, node`last, node`leaders, node`output, node`unreplayed, node.state
    ensures node.Valid() && node.received == old(node.received) + {c.header}
    ensures node.Now() == old(WithStored(node.Now(), c)) && node.last == old(node.last)
    ensures node.output == old(node.output)
  {
    hide Node.Valid, WithStored, CommitsChain, Restores, Supported;
    var sequence := node.Process(c);
  }

  lemma NodeFacts(node: Node)
    requires node.Valid()
    ensures node.received <= node.u && node.state.lastCommittedRound == PointRound(node.last)
  {
  }

  lemma StoredUnique(node: Node, c: Certificate)
    requires node.Valid() && c.header in node.u
    ensures OnePerDigest(Put(node.state.dag, c))
  {
    hide Node.Ledger, CommitPoint, CommittedChain, Certified, Mirrors, OnePerDigest, AtMost;
    MirrorsPut(node.committee, node.u, node.state.dag, node.received, node.state.lastCommittedRound, c);
    MirrorsOnePerDigest(node.committee, node.u, Put(node.state.dag, c), node.received + {c.header},
                        node.state.lastCommittedRound);
  }

  /** Hand in a certificate that makes the next even-round leader, which has support, committed. */
  method HandInTrigger(node: Node, c: Certificate, l: Header)
    requires node.Valid() && Follows(node, node.lag, node.gcDepth, node.trim)
    requires c.header in All() && forall k :: k in All() && k.id in c.header.parents ==> k in node.received
    requires l in node.received && l.author == 0 && l.round + node.lag == c.Round()
    requires l.round == PointRound(node.last) + 2 && l.round % 2 == 0
    requires exists h :: h in node.received + {c.header} && Supports(h, l)
    modifies node`received, node`last, node`leaders, node`output, node`unreplayed, node.state
    ensures node.Valid() && node.received == old(node.received) + {c.header} && node.last == Some(l)
    ensures OnePerDigest(old(WithStored(node.Now(), c)).dag)
    ensures exists x: Certificate, batch ::
              && x.header == l && node.output == old(node.output) + batch
              && LeaderBatch(node.gcDepth, node.trim, old(WithStored(node.Now(), c)), x, batch, node.Now())
  {
    hide Node.Valid, WithStored, CommitsChain, Restores, Supported, LeaderBatch, OnePerDigest, All, Uneven, Put;
    NodeFacts(node);
    ghost var before := WithStored(node.Now(), c);
    ghost var from := PointRound(node.last);
    StoredRound(node.Now(), c);
    StoredUnique(node, c);
    var sequence := node.Process(c);
    NodeFacts(node);
    ghost var h :| h in node.received && Supports(h, l);
    Triggered(node.received, l, h);
    assert Commits(node.committee, node.leaderOf, node.received, from, node.lag, c.Round(), l);
    OnlyLeader(l, node.last.value);
    ghost var x := OneBatch(node.u, node.leaderOf, node.gcDepth, node.trim, before, l, sequence, node.Now());
  }

  lemma StoredRound(s: Snapshot, c: Certificate)
    ensures WithStored(s, c).round == s.round && WithStored(s, c).last == s.last
    ensures WithStored(s, c).dag == Put(s.dag, c)
  {
  }

  ghost predicate Supports(h: Header, l: Header) { h.author == 0 && l.id in h.parents && h.round == l.round + 1 }

  lemma Triggered(received: set<Header>, l: Header, h: Header)
    requires h in received && Supports(h, l)
    ensures Supported(Uneven(), received, l)
  {
    hide Committee.Weight, Committee.ValidityThreshold;
    UnevenWeights();
    assert 0 in Supporters(received, l);
    WeightMonotone(Uneven(), {0}, Supporters(received, l));
  }

  lemma OnlyLeader(l: Header, k: Header)
    requires l in All() && k in All() && l.author == k.author && l.round == k.round
    ensures l == k
  {
    hide All;
    AllMembers();
  }

  /** A commit with nothing to walk back over is one batch. */
  lemma OneBatch(u: set<Header>, leaderOf: Schedule, gcDepth: nat, trim: bool, s: Snapshot, l: Header,
                 sequence: seq<Certificate>, t: Snapshot) returns (x: Certificate)
    requires CommitsChain(u, leaderOf, gcDepth, trim, s, l, sequence, t) && l.round - 2 <= s.round
    ensures x.header == l && LeaderBatch(gcDepth, trim, s, x, sequence, t)
  {
    hide LeaderBatch;
    var xs :| Headers(xs) == [l] + Walk(u, leaderOf, l, l.round - 2, s.round)
        && LeaderBatches(gcDepth, trim, s, xs, sequence, t);
    assert |Headers(xs)| == 1 && Headers(xs)[0] == l;
    x := xs[0];
    var k, m := SplitBatches(gcDepth, trim, s, xs, sequence, t);
    assert sequence[k..] == sequence;
  }

  // ---------------------------------------------------------------- the two commits

  /** A stored live parent of something collected is collected. */
  lemma LiveMember(dag: Dag, last: map<Author, Round>, x: Certificate, all: seq<Certificate>, p: Certificate,
                   y: Certificate)
    requires SubDag(dag, last, x, all) && OnePerDigest(dag) && p in all && LiveParent(dag, last, p, y)
    requires y.Digest() != x.Digest()
    ensures y in all
  {
    var z :| z in all && z.Digest() == y.Digest();
    assert InDag(dag, z);
  }

  lemma LiveInDag(dag: Dag, last: map<Author, Round>, x: Certificate, y: Certificate)
    requires InDag(dag, y) && y.Round() + 1 == x.Round() && y.Digest() in x.header.parents && !AtLast(last, y)
    ensures LiveParent(dag, last, x, y)
  {
  }

  /** What a stored live path reaches is output, unless it is too old. */
  lemma PathIsOutput(s: Snapshot, x: Certificate, floor: Round, batch: seq<Certificate>, path: seq<Certificate>)
    requires Flattened(s, x, floor, batch) && OnePerDigest(s.dag)
    requires path != [] && path[0] == x
    requires forall i :: 1 <= i < |path| ==>
               LiveParent(s.dag, s.last, path[i - 1], path[i]) && path[i].Digest() != x.Digest()
    requires path[|path| - 1].Round() >= floor
    ensures path[|path| - 1] in batch
  {
    hide LiveParent, OnePerDigest, Ascending, SubDag;
    var all :| SubDag(s.dag, s.last, x, all) && multiset(batch) == multiset(KeepFrom(all, floor));
    assert x in all by { LeaderCollected(s.dag, s.last, x, all); }
    var i := 1;
    while i < |path|
      invariant 1 <= i <= |path| && path[i - 1] in all
    {
      LiveMember(s.dag, s.last, x, all, path[i - 1], path[i]);
      i := i + 1;
    }
    assert path[|path| - 1] in multiset(KeepFrom(all, floor));
  }

  lemma LeaderCollected(dag: Dag, last: map<Author, Round>, x: Certificate, all: seq<Certificate>)
    requires SubDag(dag, last, x, all)
    ensures x in all
  {
  }

  /** The first commit outputs the block of round 1, and keeps author 1's later blocks. */
  lemma FirstCommit(gcDepth: nat, trim: bool, s: Snapshot, x: Certificate, batch: seq<Certificate>, t: Snapshot)
    requires LeaderBatch(gcDepth, trim, s, x, batch, t) && x.header == A(2) && OnePerDigest(s.dag)
    requires InDag(s.dag, Plain(A(1))) && s.last == map[0 := 0, 1 := 0] && s.round == 0 && t.round == 2
    ensures 1 in DigestsOf(batch)
    ensures forall y :: InDag(s.dag, y) && y.Origin() == 1 && y.Round() >= 2 ==> InDag(t.dag, y)
    ensures 0 in t.last && t.last[0] >= 2 && 1 in t.last && t.last[1] < 2
  {
    hide Flattened, OnePerDigest, RaiseAll;
    var a1 := Plain(A(1));
    LiveInDag(s.dag, s.last, x, a1);
    PathIsOutput(s, x, 0, batch, [x, a1]);
    assert a1.Digest() in DigestsOf(batch);
    FlattenedMembers(s, x, 0, batch);
    RaiseAllCovers(s.last, batch, []);
    assert [] + batch == batch;
    RaiseAllAttained(s.last, batch, 1);
    forall y | InDag(s.dag, y) && y.Origin() == 1 && y.Round() >= 2 ensures InDag(t.dag, y) {
      assert Holds(s.dag, y.Round(), 1, y) && Survives(t.last, y.Round(), 1, gcDepth, 2);
      assert Holds(t.dag, y.Round(), 1, y);
    }
  }

  /** With the block of round 1 back in place, the second commit outputs it again. */
  lemma SecondCommit(gcDepth: nat, trim: bool, s: Snapshot, x: Certificate, batch: seq<Certificate>, t: Snapshot)
    requires LeaderBatch(gcDepth, trim, s, x, batch, t) && x.header == A(4) && OnePerDigest(s.dag) && gcDepth >= 1
    requires InDag(s.dag, Plain(B(3))) && InDag(s.dag, Plain(B(2))) && InDag(s.dag, Plain(A(1)))
    requires 0 in s.last && s.last[0] >= 2 && 1 in s.last && s.last[1] < 2 && s.round == 2
    ensures 1 in DigestsOf(batch)
  {
    hide Flattened, OnePerDigest, RaiseAll, Cleaned, LiveParent;
    var b3, b2, a1 := Plain(B(3)), Plain(B(2)), Plain(A(1));
    LiveInDag(s.dag, s.last, x, b3);
    LiveInDag(s.dag, s.last, b3, b2);
    LiveInDag(s.dag, s.last, b2, a1);
    PathIsOutput(s, x, KeepFloor(trim, gcDepth, s.round), batch, [x, b3, b2, a1]);
    assert a1.Digest() in DigestsOf(batch);
  }

  // ---------------------------------------------------------------- the run

  /** The first three certificates commit nothing. */
  method FirstThree(lag: nat, gcDepth: nat, trim: bool, coinLag: Option<nat>) returns (node: Node)
    requires lag % 2 == 1 && (coinLag.Some? ==> coinLag.value < lag)
    ensures fresh(node) && fresh(node.state) && node.Valid() && Follows(node, lag, gcDepth, trim)
    ensures node.received == {A(0), B(0), A(1), A(2), B(2)} && node.last == None && node.output == []
    ensures node.Now() == WithStored(WithStored(WithStored(GenesisState(), Plain(A(1))), Plain(A(2))), Plain(B(2)))
  {
    hide Node.Valid, Certified, All, Uneven, WithStored, Genesis, GenesisState;
    AllCertified();
    AllMembers();
    GenesisHeaders();
    GenesisStateIs();
    node := new Node(Uneven(), Zero(), lag, coinLag, gcDepth, trim, Genesis(), All());
    HandIn(node, Plain(A(1)));
    HandIn(node, Plain(A(2)));
    HandIn(node, Plain(B(2)));
  }

  /** Commit the leader of round 2: the block of round 1 is output. */
  method CommitFirst(node: Node, c: Certificate)
    requires node.Valid() && Follows(node, node.lag, node.gcDepth, node.trim) && node.last == None && node.output == []
    requires c.header in All() && c.Round() == 2 + node.lag && A(2) in node.received
    requires forall k :: k in All() && k.id in c.header.parents ==> k in node.received
    requires A(3) in node.received + {c.header}
    requires InDag(Put(node.state.dag, c), Plain(A(1))) && node.state.lastCommitted == map[0 := 0, 1 := 0]
    modifies node`received, node`last, node`leaders, node`output, node`unreplayed, node.state
    ensures node.Valid() && node.received == old(node.received) + {c.header} && node.last == Some(A(2))
    ensures 1 in DigestsOf(node.output)
    ensures forall y :: old(InDag(Put(node.state.dag, c), y)) && y.Origin() == 1 && y.Round() >= 2 ==>
              InDag(node.state.dag, y)
    ensures var last := node.state.lastCommitted; 0 in last && last[0] >= 2 && 1 in last && last[1] < 2
  {
    hide Node.Valid, Certified, LeaderBatch, DigestsOf, InDag, OnePerDigest, All, Uneven, WithStored, Put;
    NodeFacts(node);
    ghost var s := WithStored(node.Now(), c);
    StoredRound(node.Now(), c);
    assert Supports(A(3), A(2));
    HandInTrigger(node, c, A(2));
    ghost var x: Certificate, batch :| x.header == A(2) && node.output == [] + batch
                                       && LeaderBatch(node.gcDepth, node.trim, s, x, batch, node.Now());
    assert [] + batch == batch;
    NodeFacts(node);
    FirstCommit(node.gcDepth, node.trim, s, x, batch, node.Now());
  }

  /** Commit the leader of round 4 with the block of round 1 back in place: it is output again. */
  method CommitSecond(node: Node, c: Certificate)
    requires node.Valid() && Follows(node, node.lag, node.gcDepth, node.trim) && node.last == Some(A(2))
    requires node.gcDepth >= 1
    requires c.header in All() && c.Round() == 4 + node.lag && A(4) in node.received
    requires forall k :: k in All() && k.id in c.header.parents ==> k in node.received
    requires A(5) in node.received + {c.header} && 1 in DigestsOf(node.output)
    requires var dag := Put(node.state.dag, c);
             InDag(dag, Plain(B(3))) && InDag(dag, Plain(B(2))) && InDag(dag, Plain(A(1)))
    requires var last := node.state.lastCommitted; 0 in last && last[0] >= 2 && 1 in last && last[1] < 2
    modifies node`received, node`last, node`leaders, node`output, node`unreplayed, node.state
    ensures node.Valid() && !DistinctDigests(node.output)
  {
    hide Node.Valid, Certified, LeaderBatch, DigestsOf, InDag, OnePerDigest, DistinctDigests, All, Uneven;
    hide WithStored, Put;
    NodeFacts(node);
    ghost var s, before := WithStored(node.Now(), c), node.output;
    StoredRound(node.Now(), c);
    assert Supports(A(5), A(4));
    HandInTrigger(node, c, A(4));
    ghost var x: Certificate, batch :| x.header == A(4) && node.output == before + batch
                                       && LeaderBatch(node.gcDepth, node.trim, s, x, batch, node.Now());
    SecondCommit(node.gcDepth, node.trim, s, x, batch, node.Now());
    TwiceInOutput(before, batch, 1);
  }

  /** Bullshark.  Every certificate is handed in after its history, one of them a second time after
      its author has committed past it, and the output repeats it. */
  method BullsharkReplay(gcDepth: nat, trim: bool, coinLag: Option<nat>) returns (node: Node)
    requires gcDepth >= 1 && (coinLag.Some? ==> coinLag.value < 1)
    ensures node.Valid() && Follows(node, 1, gcDepth, trim) && !DistinctDigests(node.output)
  {
    hide Node.Valid, Certified, DistinctDigests, DigestsOf, InDag, All, Uneven, Put;
    AllMembers();
    node := FirstThree(1, gcDepth, trim, coinLag);
    BeforeFirst(node.Now(), Plain(A(3)));
    CommitFirst(node, Plain(A(3)));
    ghost var dag := node.state.dag;
    HandIn(node, Plain(B(3)));
    HandIn(node, Plain(A(1)));
    HandIn(node, Plain(A(4)));
    BeforeBullshark(dag);
    CommitSecond(node, Plain(A(5)));
  }

  /** Narwhal, with the leader committed three rounds later. */
  method NarwhalReplay(gcDepth: nat, trim: bool, coinLag: Option<nat>) returns (node: Node)
    requires gcDepth >= 1 && (coinLag.Some? ==> coinLag.value < 3)
    ensures node.Valid() && Follows(node, 3, gcDepth, trim) && !DistinctDigests(node.output)
  {
    hide Node.Valid, Certified, DistinctDigests, DigestsOf, InDag, All, Uneven, Put;
    AllMembers();
    node := NarwhalFirst(gcDepth, trim, coinLag);
    ghost var dag := node.state.dag;
    HandIn(node, Plain(A(1)));
    HandIn(node, Plain(A(6)));
    BeforeNarwhalAgain(dag);
    CommitSecond(node, Plain(A(7)));
  }

  method NarwhalFirst(gcDepth: nat, trim: bool, coinLag: Option<nat>) returns (node: Node)
    requires coinLag.Some? ==> coinLag.value < 3
    ensures fresh(node) && fresh(node.state) && node.Valid() && Follows(node, 3, gcDepth, trim)
    ensures node.last == Some(A(2))
    ensures A(0) in node.received && A(4) in node.received && A(5) in node.received && 1 in DigestsOf(node.output)
    ensures InDag(node.state.dag, Plain(B(2))) && InDag(node.state.dag, Plain(B(3)))
    ensures var last := node.state.lastCommitted; 0 in last && last[0] >= 2 && 1 in last && last[1] < 2
  {
    hide Node.Valid, Certified, DigestsOf, InDag, All, Uneven, Put;
    AllMembers();
    node := FirstThree(3, gcDepth, trim, coinLag);
    BeforeFirst(node.Now(), Plain(A(3)));
    HandIn(node, Plain(A(3)));
    ghost var dag := node.state.dag;
    HandIn(node, Plain(B(3)));
    HandIn(node, Plain(A(4)));
    BeforeNarwhal(dag);
    CommitFirst(node, Plain(A(5)));
  }

  lemma GenesisStateIs()
    ensures GenesisState() == Snapshot(map[0 := Genesis()], RoundsOf(Genesis()), 0)
  {
  }

  lemma GenesisHeaders()
    ensures forall a :: a in Genesis() ==> GenesisEntry(All(), a, Genesis()[a])
    ensures (set a | a in Genesis() :: Genesis()[a].header) == {A(0), B(0)}
  {
    assert 0 in Genesis() && 1 in Genesis();
  }

  function GenesisState(): Snapshot { Snapshot(map[0 := Genesis()], RoundsOf(Genesis()), 0) }

  /** Storing certificates of other slots keeps what is stored. */
  lemma PutsKeep(dag: Dag, y: Certificate, cs: seq<Certificate>)
    requires InDag(dag, y) && 1 <= |cs| <= 4
    requires forall c :: c in cs ==> y.Round() != c.Round() || y.Origin() != c.Origin()
    ensures InDag(Put(dag, cs[0]), y)
    ensures |cs| > 1 ==> InDag(Put(Put(dag, cs[0]), cs[1]), y)
    ensures |cs| > 2 ==> InDag(Put(Put(Put(dag, cs[0]), cs[1]), cs[2]), y)
    ensures |cs| > 3 ==> InDag(Put(Put(Put(Put(dag, cs[0]), cs[1]), cs[2]), cs[3]), y)
    decreases |cs|
  {
    hide Put, InDag;
    assert cs[0] in cs;
    PutKeeps(dag, cs[0], y);
    if |cs| > 1 { PutsKeep(Put(dag, cs[0]), y, cs[1..]); }
  }

  lemma BeforeBullshark(dag: Dag)
    requires InDag(dag, Plain(B(2)))
    ensures var d := Put(Put(Put(Put(dag, Plain(B(3))), Plain(A(1))), Plain(A(4))), Plain(A(5)));
            InDag(d, Plain(B(2))) && InDag(d, Plain(B(3))) && InDag(d, Plain(A(1)))
  {
    hide Put, InDag;
    PutHolds(dag, Plain(B(3)));
    PutHolds(Put(dag, Plain(B(3))), Plain(A(1)));
    PutsKeep(dag, Plain(B(2)), [Plain(B(3)), Plain(A(1)), Plain(A(4)), Plain(A(5))]);
    PutsKeep(Put(dag, Plain(B(3))), Plain(B(3)), [Plain(A(1)), Plain(A(4)), Plain(A(5))]);
    PutsKeep(Put(Put(dag, Plain(B(3))), Plain(A(1))), Plain(A(1)), [Plain(A(4)), Plain(A(5))]);
  }

  lemma BeforeNarwhal(dag: Dag)
    requires InDag(dag, Plain(A(1))) && InDag(dag, Plain(B(2)))
    ensures var d := Put(Put(Put(dag, Plain(B(3))), Plain(A(4))), Plain(A(5)));
            InDag(d, Plain(A(1))) && InDag(d, Plain(B(2))) && InDag(d, Plain(B(3)))
  {
    hide Put, InDag;
    PutHolds(dag, Plain(B(3)));
    PutsKeep(dag, Plain(A(1)), [Plain(B(3)), Plain(A(4)), Plain(A(5))]);
    PutsKeep(dag, Plain(B(2)), [Plain(B(3)), Plain(A(4)), Plain(A(5))]);
    PutsKeep(Put(dag, Plain(B(3))), Plain(B(3)), [Plain(A(4)), Plain(A(5))]);
  }

  lemma BeforeNarwhalAgain(dag: Dag)
    requires InDag(dag, Plain(B(2))) && InDag(dag, Plain(B(3)))
    ensures var d := Put(Put(Put(dag, Plain(A(1))), Plain(A(6))), Plain(A(7)));
            InDag(d, Plain(B(2))) && InDag(d, Plain(B(3))) && InDag(d, Plain(A(1)))
  {
    hide Put, InDag;
    PutHolds(dag, Plain(A(1)));
    PutsKeep(dag, Plain(B(2)), [Plain(A(1)), Plain(A(6)), Plain(A(7))]);
    PutsKeep(dag, Plain(B(3)), [Plain(A(1)), Plain(A(6)), Plain(A(7))]);
    PutsKeep(Put(dag, Plain(A(1))), Plain(A(1)), [Plain(A(6)), Plain(A(7))]);
  }

  lemma BeforeFirst(s: Snapshot, c: Certificate)
    requires s == WithStored(WithStored(WithStored(GenesisState(), Plain(A(1))), Plain(A(2))), Plain(B(2)))
    requires c.header == A(3)
    ensures InDag(Put(s.dag, c), Plain(A(1))) && InDag(Put(s.dag, c), Plain(B(2)))
    ensures s.last == map[0 := 0, 1 := 0]
  {
    hide Put, InDag;
    var d1 := Put(GenesisState().dag, Plain(A(1)));
    var d2 := Put(d1, Plain(A(2)));
    PutHolds(GenesisState().dag, Plain(A(1)));
    PutHolds(d2, Plain(B(2)));
    PutsKeep(d1, Plain(A(1)), [Plain(A(2)), Plain(B(2)), c]);
    PutsKeep(Put(d2, Plain(B(2))), Plain(B(2)), [c]);
  }
}
