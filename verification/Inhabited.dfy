/** The assumptions of the cross-node theorems are met by runs that commit: four authorities of
    which one equivocates in every round, for every wave length. */
module Inhabited {
  import opened Quorums
  import opened MahiGraph
  import opened MahiStore
  import opened MahiSafety
  import opened MahiOrder
  import opened MahiCommit
  import opened Sorting
  import CS = ConsensusState
  import LC = LeaderChain

  function Four(): Committee { Committee(map[0 := 1, 1 := 1, 2 := 1, 3 := 1]) }

  lemma FourWeights()
    ensures Four().Weight({}) == 0 && Four().Weight({3}) == 1 && Four().Weight({0, 1, 2}) == 3
    ensures Four().QuorumThreshold() == 3 && Four().ValidityThreshold() == 2
  {
    hide Committee.Weight;
    var c := Four();
    UnitWeight(c, {});
    UnitWeight(c, {3});
    UnitWeight(c, {0, 1, 2});
    UnitWeight(c, {0, 1, 2, 3});
    assert c.authorities.Keys == {0, 1, 2, 3};
  }

  // ---------------------------------------------------------------- Mahi-Mahi

  /** Five digests per round: one block each of authors 0, 1 and 2, and two of author 3. */
  function RoundOfDigest(d: Digest): Round { d / 5 }

  function AuthorOfDigest(d: Digest): Author { if d % 5 == 4 then 3 else d % 5 }

  function BlockAt(d: Digest): Block {
    var r := RoundOfDigest(d);
    Block(AuthorOfDigest(d), r, if r == 0 then [] else [5 * r - 5, 5 * r - 4, 5 * r - 3])
  }

  /** All blocks with a digest below `n`. */
  function Grid(n: nat): Graph { map d: Digest | d < n :: BlockAt(d) }

  lemma GridShape(n: nat)
    ensures RoundsDescend(Grid(n)) && Closed(Grid(n))
  {
    forall d, p | d in Grid(n) && p in Grid(n)[d].parents ensures p in Grid(n) && Grid(n)[p].round < Grid(n)[d].round {
      ParentsBelow(d, p);
    }
  }

  lemma ParentsBelow(d: Digest, p: Digest)
    requires p in BlockAt(d).parents
    ensures p < d && BlockAt(p).round + 1 == BlockAt(d).round && p % 5 < 3 && AuthorOfDigest(p) == p % 5
  {
  }

  lemma GridStrong(n: nat, d: Digest)
    requires d < n && BlockAt(d).round > 0
    ensures Four().Weight(StrongAuthors(Grid(n), d)) >= Four().QuorumThreshold()
  {
    hide Committee.Weight, Committee.QuorumThreshold, Four;
    var g, r := Grid(n), BlockAt(d).round;
    forall i: nat | i < 3 ensures i in StrongAuthors(g, d) {
      var p := 5 * r - 5 + i;
      assert p in g[d].parents by { assert g[d].parents[i] == p; }
      ParentsBelow(d, p);
    }
    FourWeights();
    WeightMonotone(Four(), {0, 1, 2}, StrongAuthors(g, d));
  }

  /** The equivocator is within the fault bound. */
  lemma GridUniverse(n: nat)
    ensures Universe(Four(), Grid(n), {3})
  {
    hide Four, StrongAuthors, RoundsDescend, Closed, Committee.Weight, Committee.QuorumThreshold;
    hide Committee.ValidityThreshold;
    FourWeights();
    GridShape(n);
    forall d | d in Grid(n) && Grid(n)[d].round > 0
      ensures Four().Weight(StrongAuthors(Grid(n), d)) >= Four().QuorumThreshold()
    {
      GridStrong(n, d);
    }
  }

  /** Author 3 equivocates. */
  lemma GridEquivocates(n: nat, r: Round)
    requires 5 * r + 4 < n
    ensures var g := Grid(n);
            g[5 * r + 3].author == g[5 * r + 4].author == 3 && g[5 * r + 3].round == g[5 * r + 4].round == r
  {
  }

  /** Every block supports the block of author 0 in every lower round. */
  lemma {:induction false} GridSupport(n: nat, from: Digest, round: Round)
    requires from < n && round < BlockAt(from).round && RoundsDescend(Grid(n))
    ensures Support(Grid(n), from, 0, round) == Some(Some(5 * round))
    decreases from
  {
    var g, r := Grid(n), BlockAt(from).round;
    var p := 5 * r - 5;
    assert g[from].parents[0] == p;
    assert p in g[from].parents;
    ParentsBelow(from, p);
    if r - 1 > round { GridSupport(n, p, round); }
    assert SupportScan(g, from, 0, round, 0) == Some(Some(5 * round));
  }

  function FourSetup(wave: WaveLength): Setup { Setup(Four(), wave, (r, i) => 0) }

  lemma GridVotes(wave: WaveLength, n: nat, s: Slot, c: Digest, i: nat)
    requires c < n && BlockAt(c).round == FourSetup(wave).DecisionRound(s) && RoundsDescend(Grid(n)) && i < 3
    ensures i in Voters(Grid(n), c, 5 * s.round, 3)
  {
    hide Support;
    var g, r := Grid(n), BlockAt(c).round;
    var p := 5 * r - 5 + i;
    assert g[c].parents[i] == p;
    assert p in g[c].parents;
    ParentsBelow(c, p);
    GridSupport(n, p, s.round);
    assert VotesAt(g, c, 5 * s.round, i);
  }

  lemma GridCertifies(wave: WaveLength, n: nat, s: Slot, c: Digest)
    requires c < n && BlockAt(c).round == FourSetup(wave).DecisionRound(s) && RoundsDescend(Grid(n))
    ensures Certificate(FourSetup(wave), Grid(n), s, 5 * s.round, c)
  {
    hide Voters, Committee.Weight, Committee.QuorumThreshold, OpenBefore;
    FourWeights();
    GridVotes(wave, n, s, c, 0);
    GridVotes(wave, n, s, c, 1);
    GridVotes(wave, n, s, c, 2);
    WeightMonotone(Four(), {0, 1, 2}, Voters(Grid(n), c, 5 * s.round, 3));
  }

  /** Every slot is directly committed once three blocks of its decision round have arrived. */
  lemma GridCommits(wave: WaveLength, n: nat, s: Slot)
    requires 5 * FourSetup(wave).DecisionRound(s) + 2 < n && RoundsDescend(Grid(n))
    ensures DirectCommit(FourSetup(wave), Grid(n), s, 5 * s.round)
  {
    hide Certificate, Committee.Weight, Committee.QuorumThreshold;
    var cfg, g := FourSetup(wave), Grid(n);
    FourWeights();
    forall i: nat | i < 3 ensures i in CertifyingAuthors(cfg, g, s, 5 * s.round) {
      var c := 5 * cfg.DecisionRound(s) + i;
      GridCertifies(wave, n, s, c);
      assert c in g && g[c].author == i;
    }
    WeightMonotone(Four(), {0, 1, 2}, CertifyingAuthors(cfg, g, s, 5 * s.round));
  }

  // ---------------------------------------------------------------- a run of the committer

  /** Blocks in digest order. */
  function Deliveries(from: Digest, n: nat): seq<(Digest, Block)>
    decreases n - from
  {
    if from >= n then [] else [(from, BlockAt(from))] + Deliveries(from + 1, n)
  }

  lemma GridNext(n: nat)
    ensures DeliverOne(Grid(n), (n, BlockAt(n))) == Grid(n + 1) && Deliverable(Grid(n), BlockAt(n))
  {
    forall p | p in BlockAt(n).parents ensures p in Grid(n) && Grid(n)[p].round < BlockAt(n).round {
      ParentsBelow(n, p);
    }
  }

  lemma {:induction false} DeliveriesFill(from: Digest, n: nat)
    requires from <= n
    ensures HistoryFirst(Grid(from), Deliveries(from, n)) && DeliverAll(Grid(from), Deliveries(from, n)) == Grid(n)
    decreases n - from
  {
    hide Grid, BlockAt, Deliverable, DeliverOne;
    if from < n {
      DeliveriesFill(from + 1, n);
      GridNext(from);
      assert Deliveries(from, n)[1..] == Deliveries(from + 1, n);
    }
  }

  function GenesisBlocks(): seq<(Digest, Block)> {
    [(0, BlockAt(0)), (1, BlockAt(1)), (2, BlockAt(2)), (3, BlockAt(3)), (4, BlockAt(4))]
  }

  lemma GenesisGrid()
    ensures Digests(GenesisBlocks()) == Grid(5).Keys
    ensures forall i :: 0 <= i < |GenesisBlocks()| ==> GenesisBlocks()[i].1.parents == []
    ensures forall g: Graph :: g.Keys == Digests(GenesisBlocks()) && (forall d :: d in g ==>
              (d, g[d]) in GenesisBlocks()) ==>
              g == Grid(5)
  {
    var genesis := GenesisBlocks();
    forall i | 0 <= i < 5 ensures genesis[i] == (i, BlockAt(i)) {}
    forall d | d in Grid(5) ensures d in Digests(genesis) {
      assert genesis[d] in genesis;
    }
    forall d, b | (d, b) in genesis ensures b == BlockAt(d) && d < 5 {
      var i :| 0 <= i < 5 && genesis[i] == (d, b);
    }
    forall g: Graph | g.Keys == Digests(genesis) && (forall d :: d in g ==> (d, g[d]) in genesis) ensures g == Grid(5) {
      forall d | d in g ensures d in Grid(5) && g[d] == Grid(5)[d] {
        assert (d, g[d]) in genesis;
      }
    }
  }

  function Always(): Reveal { (r, ds) => true }

  lemma PendingWhenFull(wave: WaveLength, n: nat)
    requires 5 * wave + 4 < n
    ensures Pending(FourSetup(wave), Always(), Grid(n), SlotAt(0))
  {
    assert 5 * wave in Grid(n) && Grid(n)[5 * wave].round == wave;
  }

  lemma FirstSlotCommitted(c: MahiCommitter, wave: WaveLength, n: nat)
    requires 5 * wave + 4 < n && c.Valid() && c.cfg == FourSetup(wave) && c.revealed == Always()
    requires c.dag.byDigest == Grid(n) && c.Settled()
    ensures c.Consumed() > 0 && SlotAt(0) in c.decisions && c.decisions[SlotAt(0)] == Commit(5)
  {
    hide Grid, Universe, Pending, MahiCommitter.Settled, MahiDag.Valid, Justified, Stream, DirectCommit, DirectSkip;
    assert SlotAt(0) == Slot(1, 0);
    GridShape(n);
    PendingWhenFull(wave, n);
    GridCommits(wave, n, SlotAt(0));
    assert !NoDirectEvidence(c.cfg, Grid(n), SlotAt(0));
    FirstUnconsumedOpen(c);
    GridUniverse(n);
    DirectBinds(c.cfg, Grid(n), {3}, c.decisions, SlotAt(0), Commit(5));
  }

  lemma GridWithin(n: nat)
    ensures WithinFaultBound(Four(), Grid(n)) && (n > 5 ==> Grid(n) != Grid(5))
  {
    hide Universe;
    GridUniverse(n);
    assert Extends(Grid(n), Grid(n));
    assert n > 5 ==> 5 in Grid(n) && 5 !in Grid(5);
  }

  /** The committer, started from genesis and fed the blocks of the first rounds, never stops and
      commits the first slot. */
  method CommitterCommits(wave: WaveLength, n: nat) returns (c: MahiCommitter)
    requires 5 * wave + 4 < n
    ensures c.Valid() && c.dag.byDigest == Grid(n) && Universe(Four(), Grid(n), {3})
    ensures c.Consumed() > 0 && SlotAt(0) in c.decisions && c.decisions[SlotAt(0)] == Commit(5)
  {
    hide Grid, Universe, Extends, Pending, MahiCommitter.Settled, MahiCommitter.Emitting, MahiDag.Valid, Justified;
    hide WithinFaultBound, Conflict, Deliveries, DeliverAll, HistoryFirst, Digests, GenesisBlocks;
    GenesisGrid();
    c := new MahiCommitter(FourSetup(wave), 50, Always(), GenesisBlocks());
    assert c.dag.byDigest == Grid(5);
    DeliveriesFill(5, n);
    GridUniverse(n);
    GridWithin(n);
    var ok, sent := c.Run(Deliveries(5, n));
    FirstSlotCommitted(c, wave, n);
  }

  // ---------------------------------------------------------------- a crashed leader

  /** Authors 0, 1 and 2 alone, one block each per round; author 3, the leader, has crashed. */
  function CrashBlock(d: Digest): Block {
    var r := d / 3;
    Block(d % 3, r, if r == 0 then [] else [3 * r - 3, 3 * r - 2, 3 * r - 1])
  }

  function CrashGrid(n: nat): Graph { map d: Digest | d < n :: CrashBlock(d) }

  function CrashSetup(wave: WaveLength): Setup { Setup(Four(), wave, (r, i) => 3) }

  lemma CrashParents(d: Digest, p: Digest)
    requires p in CrashBlock(d).parents
    ensures p < d && CrashBlock(p).round + 1 == CrashBlock(d).round
  {
  }

  lemma CrashShape(n: nat)
    ensures RoundsDescend(CrashGrid(n)) && Closed(CrashGrid(n))
  {
    var g := CrashGrid(n);
    forall d, p | d in g && p in g[d].parents ensures p in g && g[p].round < g[d].round { CrashParents(d, p); }
  }

  lemma CrashStrong(n: nat, d: Digest)
    requires d < n && CrashBlock(d).round > 0
    ensures Four().Weight(StrongAuthors(CrashGrid(n), d)) >= Four().QuorumThreshold()
  {
    hide Committee.Weight, Committee.QuorumThreshold, Four;
    var g, r := CrashGrid(n), CrashBlock(d).round;
    forall i: nat | i < 3 ensures i in StrongAuthors(g, d) {
      var p := 3 * r - 3 + i;
      assert p in g[d].parents by { assert g[d].parents[i] == p; }
      CrashParents(d, p);
      assert p % 3 == i;
    }
    FourWeights();
    WeightMonotone(Four(), {0, 1, 2}, StrongAuthors(g, d));
  }

  lemma CrashUniverse(n: nat)
    ensures Universe(Four(), CrashGrid(n), {})
  {
    hide Four, StrongAuthors, RoundsDescend, Closed, Committee.Weight, Committee.QuorumThreshold;
    hide Committee.ValidityThreshold;
    FourWeights();
    CrashShape(n);
    forall d | d in CrashGrid(n) && CrashGrid(n)[d].round > 0
      ensures Four().Weight(StrongAuthors(CrashGrid(n), d)) >= Four().QuorumThreshold()
    {
      CrashStrong(n, d);
    }
  }

  /** Exactly three of four authors see no block of the leader, and that is enough to skip its slot. */
  lemma CrashSkips(wave: WaveLength, n: nat, s: Slot)
    requires 3 * (s.round + wave - 2) + 2 < n && RoundsDescend(CrashGrid(n)) && Closed(CrashGrid(n))
    ensures DirectSkip(CrashSetup(wave), CrashGrid(n), s)
  {
    hide NonVote, Committee.Weight, Committee.QuorumThreshold, Closed, RoundsDescend, Path;
    var cfg, g := CrashSetup(wave), CrashGrid(n);
    FourWeights();
    forall i: nat | i < 3 ensures i in NonVotingAuthors(cfg, g, s) {
      var v := 3 * (s.round + wave - 2) + i;
      assert v in g && g[v].round == s.round + wave - 2 && g[v].author == i;
      NonVoteMeans(cfg, g, s, v);
    }
    WeightMonotone(Four(), {0, 1, 2}, NonVotingAuthors(cfg, g, s));
  }

  function CrashDeliveries(from: Digest, n: nat): seq<(Digest, Block)>
    decreases n - from
  {
    if from >= n then [] else [(from, CrashBlock(from))] + CrashDeliveries(from + 1, n)
  }

  lemma CrashNext(n: nat)
    ensures DeliverOne(CrashGrid(n), (n, CrashBlock(n))) == CrashGrid(n + 1) && Deliverable(CrashGrid(n), CrashBlock(n))
  {
    forall p | p in CrashBlock(n).parents ensures p in CrashGrid(n) && CrashGrid(n)[p].round < CrashBlock(n).round {
      CrashParents(n, p);
    }
  }

  lemma {:induction false} CrashFill(from: Digest, n: nat)
    requires from <= n
    ensures HistoryFirst(CrashGrid(from), CrashDeliveries(from, n))
    ensures DeliverAll(CrashGrid(from), CrashDeliveries(from, n)) == CrashGrid(n)
    decreases n - from
  {
    hide CrashGrid, CrashBlock, Deliverable, DeliverOne;
    if from < n {
      CrashFill(from + 1, n);
      CrashNext(from);
      assert CrashDeliveries(from, n)[1..] == CrashDeliveries(from + 1, n);
    }
  }

  lemma CrashWithin(wave: WaveLength, n: nat)
    requires 3 * wave + 2 < n
    ensures WithinFaultBound(Four(), CrashGrid(n)) && CrashGrid(n) != CrashGrid(0)
    ensures Pending(CrashSetup(wave), Always(), CrashGrid(n), SlotAt(0))
  {
    hide Universe;
    CrashUniverse(n);
    assert Extends(CrashGrid(n), CrashGrid(n));
    assert 0 in CrashGrid(n) && 0 !in CrashGrid(0);
    assert 3 * wave in CrashGrid(n) && CrashGrid(n)[3 * wave].round == wave;
  }

  lemma FirstSlotSkipped(c: MahiCommitter, wave: WaveLength, n: nat)
    requires 3 * wave + 2 < n && c.Valid() && c.cfg == CrashSetup(wave) && c.revealed == Always()
    requires c.dag.byDigest == CrashGrid(n) && c.Settled()
    ensures c.Consumed() > 0 && SlotAt(0) in c.decisions && c.decisions[SlotAt(0)] == Skip
  {
    hide CrashGrid, Universe, Pending, MahiCommitter.Settled, MahiDag.Valid, Justified, Stream, DirectCommit;
    hide DirectSkip;
    assert SlotAt(0) == Slot(1, 0);
    CrashShape(n);
    CrashWithin(wave, n);
    CrashSkips(wave, n, SlotAt(0));
    assert !NoDirectEvidence(c.cfg, CrashGrid(n), SlotAt(0));
    FirstUnconsumedOpen(c);
    CrashUniverse(n);
    DirectBinds(c.cfg, CrashGrid(n), {}, c.decisions, SlotAt(0), Skip);
  }

  /** The committer skips the slot of a crashed leader on the word of three authors out of four. */
  method CommitterSkips(wave: WaveLength, n: nat) returns (c: MahiCommitter)
    requires 3 * wave + 2 < n
    ensures c.Valid() && c.cfg.committee == Four() && c.dag.byDigest == CrashGrid(n)
    ensures c.Consumed() > 0 && SlotAt(0) in c.decisions && c.decisions[SlotAt(0)] == Skip
  {
    hide CrashGrid, Universe, Extends, Pending, MahiCommitter.Settled, MahiCommitter.Emitting, MahiDag.Valid, Justified;
    hide WithinFaultBound, Conflict, CrashDeliveries, DeliverAll, HistoryFirst, Digests;
    c := new MahiCommitter(CrashSetup(wave), 50, Always(), []);
    NothingYet(c.dag.byDigest);
    CrashFill(0, n);
    CrashWithin(wave, n);
    var ok, sent := c.Run(CrashDeliveries(0, n));
    FirstSlotSkipped(c, wave, n);
  }

  lemma NothingYet(g: Graph)
    requires g.Keys == Digests([])
    ensures g == CrashGrid(0)
  {
    assert g.Keys == {};
  }

  // ---------------------------------------------------------------- Narwhal and Bullshark

  /** Each author has one certified header per round, referencing authors 0, 1 and 2 of the round
      before. */
  function HeaderAt(d: nat): CS.Header {
    CS.Header(d, d % 4, d / 4, if d < 4 then {} else {4 * (d / 4) - 4, 4 * (d / 4) - 3, 4 * (d / 4) - 2}, {}, None)
  }

  function HeaderGrid(n: nat): set<CS.Header> { set d: nat | d < n :: HeaderAt(d) }

  lemma HeaderPair(d: nat, e: nat)
    ensures HeaderAt(d).author == HeaderAt(e).author && HeaderAt(d).round == HeaderAt(e).round ==> d == e
    ensures HeaderAt(e).id in HeaderAt(d).parents ==> HeaderAt(e).round + 1 == HeaderAt(d).round
  {
  }

  lemma HeaderParents(n: nat, d: nat)
    requires 4 <= d < n
    ensures Four().Weight(LC.ParentAuthors(HeaderGrid(n), HeaderAt(d))) >= Four().QuorumThreshold()
  {
    hide Committee.Weight, Committee.QuorumThreshold, Four;
    forall i: nat | i < 3 ensures i in LC.ParentAuthors(HeaderGrid(n), HeaderAt(d)) {
      var p := 4 * (d / 4) - 4 + i;
      assert p < n && HeaderAt(p) in HeaderGrid(n) && HeaderAt(p).author == i;
    }
    FourWeights();
    WeightMonotone(Four(), {0, 1, 2}, LC.ParentAuthors(HeaderGrid(n), HeaderAt(d)));
  }

  lemma HeadersCertified(n: nat)
    ensures LC.Certified(Four(), HeaderGrid(n))
  {
    hide Four, LC.ParentAuthors, Committee.Weight, Committee.QuorumThreshold;
    forall h, k | h in HeaderGrid(n) && k in HeaderGrid(n)
      ensures h.author == k.author && h.round == k.round ==> h == k
      ensures k.id in h.parents ==> k.round + 1 == h.round
    {
      HeaderPair(h.id, k.id);
    }
    forall h | h in HeaderGrid(n) && h.round > 0
      ensures Four().Weight(LC.ParentAuthors(HeaderGrid(n), h)) >= Four().QuorumThreshold()
    {
      HeaderParents(n, h.id);
    }
  }

  /** The premises of leader-sequence agreement hold at every even round below the top. */
  lemma LeaderPremises(n: nat, r: nat)
    requires 0 < r && LC.Even(r) && 4 * r + 8 <= n
    ensures LC.Certified(Four(), HeaderGrid(n))
    ensures LC.CommitPoint(Four(), HeaderGrid(n), _ => 0, Some(HeaderAt(4 * r)))
  {
    hide LC.Certified, Committee.Weight, Committee.QuorumThreshold, Committee.ValidityThreshold, Four;
    HeadersCertified(n);
    var u, l := HeaderGrid(n), HeaderAt(4 * r);
    assert l in u && l.round == r && l.author == 0;
    forall i: nat | i < 3 ensures i in LC.Supporters(u, l) {
      var p := 4 * r + 4 + i;
      assert HeaderAt(p) in u && HeaderAt(p).round == r + 1 && HeaderAt(p).author == i;
    }
    FourWeights();
    WeightMonotone(Four(), {0, 1, 2}, LC.Supporters(u, l));
  }
}
