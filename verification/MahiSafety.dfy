/** Slot decisions of the Mahi-Mahi committer, what justifies them, and why two nodes
    never decide one slot differently. */
module MahiSafety {
  import opened Quorums
  import opened MahiGraph

  const LEADER_COUNT: nat := 2

  /** The deployed wave lengths are 4 and 5; the argument needs only the vote round to lie
      above the leader round. */
  type WaveLength = w: nat | 3 <= w witness 5

  datatype Slot = Slot(round: Round, index: nat)

  datatype Decision = Commit(leader: Digest) | Skip | Undecided

  /** Committee, wave length and the leader schedule, fixed for a run and common to all nodes. */
  datatype Setup = Setup(committee: Committee, wave: WaveLength, authority: (Round, nat) -> Author) {
    function DecisionRound(s: Slot): Round { s.round + wave - 1 }
    function VotingRound(s: Slot): Round { s.round + wave - 2 }
    function Leader(s: Slot): Author { authority(s.round, s.index) }
  }

  // ---------------------------------------------------------------- slot order 1.0, 1.1, 2.0, ...

  ghost predicate ProperSlot(s: Slot) { s.round >= 1 && s.index < LEADER_COUNT }

  function SlotAt(n: nat): Slot { Slot(1 + n / LEADER_COUNT, n % LEADER_COUNT) }

  function Ordinal(s: Slot): nat
    requires ProperSlot(s)
  {
    LEADER_COUNT * (s.round - 1) + s.index
  }

  lemma SlotOrder(s: Slot, n: nat)
    ensures ProperSlot(SlotAt(n)) && Ordinal(SlotAt(n)) == n
    ensures ProperSlot(s) ==> SlotAt(Ordinal(s)) == s
  {
  }

  // ---------------------------------------------------------------- evidence in a graph

  ghost predicate Candidate(cfg: Setup, g: Graph, s: Slot, l: Digest) {
    l in g && g[l].author == cfg.Leader(s) && g[l].round == s.round
  }

  ghost predicate Certificate(cfg: Setup, g: Graph, s: Slot, l: Digest, c: Digest)
    requires RoundsDescend(g)
  {
    c in g && g[c].round == cfg.DecisionRound(s) && Certifies(cfg.committee, g, c, l) == Some(true)
  }

  ghost function CertifyingAuthors(cfg: Setup, g: Graph, s: Slot, l: Digest): set<Author>
    requires RoundsDescend(g)
  {
    set c | c in g && Certificate(cfg, g, s, l, c) :: g[c].author
  }

  ghost predicate NonVote(cfg: Setup, g: Graph, s: Slot, v: Digest)
    requires RoundsDescend(g)
  {
    v in g && g[v].round == cfg.VotingRound(s) && Support(g, v, cfg.Leader(s), s.round) == Some(None)
  }

  ghost function NonVotingAuthors(cfg: Setup, g: Graph, s: Slot): set<Author>
    requires RoundsDescend(g)
  {
    set v | v in g && NonVote(cfg, g, s, v) :: g[v].author
  }

  /** A quorum of decision-round authors certify this leader block. */
  ghost predicate DirectCommit(cfg: Setup, g: Graph, s: Slot, l: Digest)
    requires RoundsDescend(g)
  {
    Candidate(cfg, g, s, l) && cfg.committee.Weight(CertifyingAuthors(cfg, g, s, l)) >= cfg.committee.QuorumThreshold()
  }

  /** A quorum of vote-round authors support no block of the slot. */
  ghost predicate DirectSkip(cfg: Setup, g: Graph, s: Slot)
    requires RoundsDescend(g)
  {
    cfg.committee.Weight(NonVotingAuthors(cfg, g, s)) >= cfg.committee.QuorumThreshold()
  }

  /** The anchor's history holds a certificate for this leader block. */
  ghost predicate AnchorCommits(cfg: Setup, g: Graph, s: Slot, anchor: Digest, l: Digest)
    requires RoundsDescend(g)
  {
    Candidate(cfg, g, s, l)
    && exists c :: Certificate(cfg, g, s, l, c) && Linked(g, anchor, c) == Some(true)
  }

  ghost predicate AnchorSkips(cfg: Setup, g: Graph, s: Slot, anchor: Digest)
    requires RoundsDescend(g)
  {
    forall l :: !AnchorCommits(cfg, g, s, anchor, l)
  }

  ghost predicate ByAnchor(cfg: Setup, g: Graph, s: Slot, anchor: Digest, d: Decision)
    requires RoundsDescend(g)
  {
    match d
    case Commit(l) => AnchorCommits(cfg, g, s, anchor, l)
    case Skip => AnchorSkips(cfg, g, s, anchor)
    case Undecided => false
  }

  ghost predicate Directly(cfg: Setup, g: Graph, s: Slot, d: Decision)
    requires RoundsDescend(g)
  {
    match d
    case Commit(l) => DirectCommit(cfg, g, s, l)
    case Skip => DirectSkip(cfg, g, s)
    case Undecided => false
  }

  // ---------------------------------------------------------------- justified decision tables

  type Decisions = map<Slot, Decision>

  /** The `n`-th slot is the anchor slot of `s`: the first committed slot above the decision
      round of `s`, with every slot between recorded as skipped. */
  ghost predicate AnchorSlot(cfg: Setup, g: Graph, ds: Decisions, s: Slot, n: nat, anchor: Digest) {
    && SlotAt(n).round > cfg.DecisionRound(s)
    && SlotAt(n) in ds && ds[SlotAt(n)] == Commit(anchor)
    && Candidate(cfg, g, SlotAt(n), anchor)
    && (forall k :: 0 <= k < n && SlotAt(k).round > cfg.DecisionRound(s) ==> SlotAt(k) in ds && ds[SlotAt(k)] == Skip)
  }

  ghost predicate Indirectly(cfg: Setup, g: Graph, ds: Decisions, s: Slot, d: Decision)
    requires RoundsDescend(g)
  {
    exists n: nat, anchor :: AnchorSlot(cfg, g, ds, s, n, anchor) && ByAnchor(cfg, g, s, anchor, d)
  }

  /** Every recorded decision follows directly from the graph or from an anchor in the table. */
  ghost predicate Justified(cfg: Setup, g: Graph, ds: Decisions)
    requires RoundsDescend(g)
  {
    forall s :: s in ds ==> ProperSlot(s) && (Directly(cfg, g, s, ds[s]) || Indirectly(cfg, g, ds, s, ds[s]))
  }

  // ---------------------------------------------------------------- the rules on blocks and paths

  /** Direct commit, on the blocks themselves: a block of the scheduled leader, and authors of more than
      two thirds of the stake with a block `wave - 1` rounds later that certifies it. */
  lemma DirectCommitMeans(cfg: Setup, g: Graph, s: Slot, l: Digest, certifiers: set<Author>)
    requires RoundsDescend(g)
    requires forall a :: a in certifiers <==>
               exists d :: d in g && g[d].round == s.round + cfg.wave - 1 && g[d].author == a
                           && Certifies(cfg.committee, g, d, l) == Some(true)
    ensures DirectCommit(cfg, g, s, l) <==>
            && l in g && g[l].author == cfg.authority(s.round, s.index) && g[l].round == s.round
            && cfg.committee.Weight(certifiers) >= 2 * cfg.committee.Total() / 3 + 1
  {
    hide Certifies, Committee.Weight;
    var authors := CertifyingAuthors(cfg, g, s, l);
    forall a | a in certifiers ensures a in authors {
      var d :| d in g && g[d].round == s.round + cfg.wave - 1 && g[d].author == a
               && Certifies(cfg.committee, g, d, l) == Some(true);
      assert Certificate(cfg, g, s, l, d);
    }
    assert certifiers == authors;
  }

  /** Direct skip, on blocks and paths: authors of more than two thirds of the stake have a block
      `wave - 2` rounds after the slot from which no path leads to a block of its leader there. */
  lemma DirectSkipMeans(cfg: Setup, g: Graph, s: Slot, skippers: set<Author>)
    requires RoundsDescend(g) && Closed(g)
    requires forall a :: a in skippers <==>
               exists v :: v in g && g[v].round == s.round + cfg.wave - 2 && g[v].author == a
                           && forall d, xs :: d in g && g[d].author == cfg.Leader(s) && g[d].round == s.round ==>
                                !Path(g, xs, v, d)
    ensures DirectSkip(cfg, g, s) <==> cfg.committee.Weight(skippers) >= 2 * cfg.committee.Total() / 3 + 1
  {
    hide Support, Committee.Weight, Path;
    var authors := NonVotingAuthors(cfg, g, s);
    forall v | v in g && g[v].round == s.round + cfg.wave - 2
      ensures NonVote(cfg, g, s, v) <==>
              forall d, xs :: d in g && g[d].author == cfg.Leader(s) && g[d].round == s.round ==>
                !Path(g, xs, v, d)
    {
      NonVoteMeans(cfg, g, s, v);
    }
    forall a | a in skippers ensures a in authors {
      var v :| v in g && g[v].round == s.round + cfg.wave - 2 && g[v].author == a
               && forall d, xs :: d in g && g[d].author == cfg.Leader(s) && g[d].round == s.round ==>
                    !Path(g, xs, v, d);
      assert NonVote(cfg, g, s, v);
    }
    assert skippers == authors;
  }

  lemma NonVoteMeans(cfg: Setup, g: Graph, s: Slot, v: Digest)
    requires RoundsDescend(g) && Closed(g) && v in g && g[v].round == s.round + cfg.wave - 2
    ensures NonVote(cfg, g, s, v) <==>
            forall d, xs :: d in g && g[d].author == cfg.Leader(s) && g[d].round == s.round ==>
              !Path(g, xs, v, d)
  {
    hide Support, Path;
    var a := cfg.authority(s.round, s.index);
    SupportComplete(g, v, a, s.round);
    if Support(g, v, a, s.round) == Some(None) {
      forall d, xs | d in g && g[d].author == a && g[d].round == s.round ensures !Path(g, xs, v, d) {
        SupportNone(g, v, a, s.round, d);
        LinkedIffPath(g, v, d);
      }
    } else {
      SupportSound(g, v, a, s.round);
      var xs := LinkedPath(g, v, Support(g, v, a, s.round).value.value);
    }
  }

  /** What an anchor commits, on blocks and paths: a block of the scheduled leader with a certificate
      `wave - 1` rounds later on a path from the anchor. */
  lemma AnchorCommitsMeans(cfg: Setup, g: Graph, s: Slot, anchor: Digest, l: Digest)
    requires RoundsDescend(g)
    ensures AnchorCommits(cfg, g, s, anchor, l) <==>
            && l in g && g[l].author == cfg.authority(s.round, s.index) && g[l].round == s.round
            && exists c, xs :: c in g && g[c].round == s.round + cfg.wave - 1 && Path(g, xs, anchor, c)
                               && Certifies(cfg.committee, g, c, l) == Some(true)
  {
    hide Certifies, Path, Linked;
    if AnchorCommits(cfg, g, s, anchor, l) {
      var c :| Certificate(cfg, g, s, l, c) && Linked(g, anchor, c) == Some(true);
      var xs := LinkedPath(g, anchor, c);
    }
    if c, xs :| c in g && g[c].round == s.round + cfg.wave - 1 && Path(g, xs, anchor, c)
                && Certifies(cfg.committee, g, c, l) == Some(true) {
      PathLinked(g, xs, anchor, c);
      assert Certificate(cfg, g, s, l, c);
    }
  }

  /** The anchor of a slot, on rounds: the first slot at least `wave` rounds above that is not recorded
      as skipped, if it is recorded as committed. */
  lemma AnchorSlotMeans(cfg: Setup, g: Graph, ds: Decisions, s: Slot, n: nat, anchor: Digest)
    requires SlotAt(n) in ds && ds[SlotAt(n)] == Commit(anchor) && Candidate(cfg, g, SlotAt(n), anchor)
    ensures AnchorSlot(cfg, g, ds, s, n, anchor) <==>
            && SlotAt(n).round >= s.round + cfg.wave
            && forall k :: 0 <= k < n && SlotAt(k).round >= s.round + cfg.wave ==>
                 SlotAt(k) in ds && ds[SlotAt(k)] == Skip
  {
  }

  /** Two slots a round: 1.0, 1.1, 2.0, 2.1, ... */
  lemma SlotSequence(n: nat)
    ensures SlotAt(0) == Slot(1, 0)
    ensures SlotAt(n + 1) == if SlotAt(n).index == 0 then Slot(SlotAt(n).round, 1) else Slot(SlotAt(n).round + 1, 0)
  {
  }

  // ---------------------------------------------------------------- the fault model

  ghost function StrongAuthors(g: Graph, d: Digest): set<Author>
    requires d in g
  {
    set p | p in g[d].parents && p in g && g[p].round + 1 == g[d].round :: g[p].author
  }

  /** All blocks that exist: history complete, rounds descending, a quorum of distinct
      previous-round parents above genesis, and equivocation only by `byz`, whose stake is
      below the validity threshold. */
  ghost predicate Universe(c: Committee, u: Graph, byz: set<Author>) {
    && RoundsDescend(u) && Closed(u)
    && (forall d :: d in u && u[d].round > 0 ==> c.Weight(StrongAuthors(u, d)) >= c.QuorumThreshold())
    && c.Weight(byz) < c.ValidityThreshold()
    && (forall d, e :: d in u && e in u && u[d].author == u[e].author && u[d].author !in byz && u[d].round == u[e].round
          ==> d == e)
  }

  /** The blocks one node holds at some moment. */
  ghost predicate View(g: Graph, u: Graph) {
    RoundsDescend(g) && Closed(g) && Extends(g, u)
  }

  // ---------------------------------------------------------------- no conflicting evidence

  /** A voter of a certificate, as a block. */
  lemma VoterBlock(c: Committee, u: Graph, cert: Digest, l: Digest, a: Author) returns (v: Digest)
    requires RoundsDescend(u) && cert in u && u[cert].round > 0
    requires a in Voters(u, cert, l, |u[cert].parents|)
    ensures v in u && u[v].author == a && u[v].round + 1 == u[cert].round
    ensures l in u && Support(u, v, u[l].author, u[l].round) == Some(Some(l))
  {
    var i :| 0 <= i < |u[cert].parents| && VotesAt(u, cert, l, i) && u[u[cert].parents[i]].author == a;
    v := u[cert].parents[i];
  }

  /** No two blocks of one author and round are certified in one decision round. */
  lemma CertifiedUnique(c: Committee, u: Graph, byz: set<Author>, c1: Digest, l1: Digest, c2: Digest, l2: Digest)
    requires Universe(c, u, byz)
    requires c1 in u && c2 in u && u[c1].round == u[c2].round > 0
    requires Certifies(c, u, c1, l1) == Some(true) && Certifies(c, u, c2, l2) == Some(true)
    requires l1 in u && l2 in u && u[l1].author == u[l2].author && u[l1].round == u[l2].round
    ensures l1 == l2
  {
    var h := HonestIntersection(c, byz, Voters(u, c1, l1, |u[c1].parents|), Voters(u, c2, l2, |u[c2].parents|));
    var v1 := VoterBlock(c, u, c1, l1, h);
    var v2 := VoterBlock(c, u, c2, l2, h);
  }

  /** A slot with a direct-skip quorum has no certificate at all. */
  lemma SkipExcludesCertificate(cfg: Setup, u: Graph, byz: set<Author>, s: Slot, l: Digest, c: Digest)
    requires Universe(cfg.committee, u, byz)
    requires DirectSkip(cfg, u, s)
    requires Candidate(cfg, u, s, l)
    ensures !Certificate(cfg, u, s, l, c)
  {
    if Certificate(cfg, u, s, l, c) {
      var h := HonestIntersection(cfg.committee, byz, Voters(u, c, l, |u[c].parents|), NonVotingAuthors(cfg, u, s));
      var v := VoterBlock(cfg.committee, u, c, l, h);
    }
  }

  lemma StrongParent(c: Committee, u: Graph, byz: set<Author>, d: Digest) returns (p: Digest)
    requires Universe(c, u, byz) && d in u && u[d].round > 0
    ensures p in u && p in u[d].parents && u[p].round + 1 == u[d].round
  {
    var a := QuorumMeetsValidity(c, StrongAuthors(u, d), StrongAuthors(u, d)) by {
      assert c.QuorumThreshold() >= c.ValidityThreshold();
    }
    p :| p in u[d].parents && p in u && u[p].round + 1 == u[d].round && u[p].author == a;
  }

  /** Every block reaches some block of each lower round. */
  lemma {:induction false} DescendTo(c: Committee, u: Graph, byz: set<Author>, d: Digest, r: Round) returns (e: Digest)
    requires Universe(c, u, byz) && d in u && r <= u[d].round
    ensures e in u && u[e].round == r && Linked(u, d, e) == Some(true)
    decreases u[d].round
  {
    e := d;
    if u[d].round > r {
      var p := StrongParent(c, u, byz, d);
      e := DescendTo(c, u, byz, p, r);
      ParentLinked(u, d, p);
      LinkedTransitive(u, d, p, e);
    }
  }

  /** A directly committed leader has a certificate in the history of every later anchor. */
  lemma DirectCommitInevitable(cfg: Setup, u: Graph, byz: set<Author>, s: Slot, l: Digest, anchor: Digest)
    requires Universe(cfg.committee, u, byz)
    requires DirectCommit(cfg, u, s, l)
    requires anchor in u && u[anchor].round > cfg.DecisionRound(s)
    ensures AnchorCommits(cfg, u, s, anchor, l)
  {
    var c := cfg.committee;
    var e := DescendTo(c, u, byz, anchor, cfg.DecisionRound(s) + 1);
    var h := HonestIntersection(c, byz, StrongAuthors(u, e), CertifyingAuthors(cfg, u, s, l));
    var p :| p in u[e].parents && p in u && u[p].round + 1 == u[e].round && u[p].author == h;
    var q :| q in u && Certificate(cfg, u, s, l, q) && u[q].author == h;
    assert p == q;
    ParentLinked(u, e, p);
    LinkedTransitive(u, anchor, e, p);
  }

  lemma AnchorCommitUnique(cfg: Setup, u: Graph, byz: set<Author>, s: Slot, a1: Digest, l1: Digest, a2: Digest,
                           l2: Digest)
    requires Universe(cfg.committee, u, byz)
    requires AnchorCommits(cfg, u, s, a1, l1) && AnchorCommits(cfg, u, s, a2, l2)
    ensures l1 == l2
  {
    var c1 :| Certificate(cfg, u, s, l1, c1) && Linked(u, a1, c1) == Some(true);
    var c2 :| Certificate(cfg, u, s, l2, c2) && Linked(u, a2, c2) == Some(true);
    CertifiedUnique(cfg.committee, u, byz, c1, l1, c2, l2);
  }

  lemma DirectCommitCertificate(cfg: Setup, u: Graph, s: Slot, l: Digest) returns (c: Digest)
    requires RoundsDescend(u) && DirectCommit(cfg, u, s, l)
    ensures Certificate(cfg, u, s, l, c)
  {
    var a := Least(CertifyingAuthors(cfg, u, s, l));
    c :| c in u && Certificate(cfg, u, s, l, c) && u[c].author == a;
  }

  // ---------------------------------------------------------------- agreement

  /** Direct evidence fixes the decision of the slot wherever and however it is decided. */
  lemma DirectBinds(cfg: Setup, u: Graph, byz: set<Author>, ds: Decisions, s: Slot, d: Decision)
    requires Universe(cfg.committee, u, byz) && Justified(cfg, u, ds) && s in ds
    requires Directly(cfg, u, s, d)
    ensures ds[s] == d
  {
    var e := ds[s];
    if Directly(cfg, u, s, e) {
      if d.Commit? {
        var c1 := DirectCommitCertificate(cfg, u, s, d.leader);
        if e.Commit? {
          var c2 := DirectCommitCertificate(cfg, u, s, e.leader);
          CertifiedUnique(cfg.committee, u, byz, c1, d.leader, c2, e.leader);
        } else {
          SkipExcludesCertificate(cfg, u, byz, s, d.leader, c1);
        }
      } else if e.Commit? {
        var c2 := DirectCommitCertificate(cfg, u, s, e.leader);
        SkipExcludesCertificate(cfg, u, byz, s, e.leader, c2);
      }
    } else {
      var n: nat, anchor :| AnchorSlot(cfg, u, ds, s, n, anchor) && ByAnchor(cfg, u, s, anchor, e);
      if d.Commit? {
        DirectCommitInevitable(cfg, u, byz, s, d.leader, anchor);
        if e.Commit? { AnchorCommitUnique(cfg, u, byz, s, anchor, d.leader, anchor, e.leader); }
      } else if e.Commit? {
        var c :| Certificate(cfg, u, s, e.leader, c) && Linked(u, anchor, c) == Some(true);
        SkipExcludesCertificate(cfg, u, byz, s, e.leader, c);
      }
    }
  }

  /** If two tables agree where the earlier of two anchors sits, the anchors are one. */
  lemma AnchorsCoincide(cfg: Setup, u: Graph, d1: Decisions, d2: Decisions, s: Slot,
                        n1: nat, a1: Digest, n2: nat, a2: Digest)
    requires AnchorSlot(cfg, u, d1, s, n1, a1) && AnchorSlot(cfg, u, d2, s, n2, a2)
    requires n1 <= n2 ==> (SlotAt(n1) in d2 ==> d1[SlotAt(n1)] == d2[SlotAt(n1)])
    requires n2 <= n1 ==> (SlotAt(n2) in d1 ==> d1[SlotAt(n2)] == d2[SlotAt(n2)])
    ensures n1 == n2 && a1 == a2
  {
  }

  ghost function SlotsFrom(ds: Decisions, n: nat): set<Slot> {
    set s | s in ds && ProperSlot(s) && Ordinal(s) >= n
  }

  lemma FewerSlotsAbove(ds: Decisions, n: nat, m: nat)
    requires n < m && SlotAt(n) in ds
    ensures SlotsFrom(ds, m) < SlotsFrom(ds, n)
  {
    SlotOrder(SlotAt(n), n);
    assert SlotAt(n) in SlotsFrom(ds, n) && SlotAt(n) !in SlotsFrom(ds, m);
  }

  lemma LaterRoundLaterSlot(s: Slot, n: nat, m: nat)
    requires s == SlotAt(n) && SlotAt(m).round > s.round
    ensures m > n
  {
  }

  /** Two justified tables over one universe agree on every slot they both decide: downward
      induction over the slots of the first table. */
  lemma {:induction false} TablesAgreeAt(cfg: Setup, u: Graph, byz: set<Author>, d1: Decisions, d2: Decisions, n: nat)
    requires Universe(cfg.committee, u, byz)
    requires Justified(cfg, u, d1) && Justified(cfg, u, d2)
    requires SlotAt(n) in d1 && SlotAt(n) in d2
    ensures d1[SlotAt(n)] == d2[SlotAt(n)]
    decreases SlotsFrom(d1, n)
  {
    var s := SlotAt(n);
    if Directly(cfg, u, s, d1[s]) {
      DirectBinds(cfg, u, byz, d2, s, d1[s]);
    } else if Directly(cfg, u, s, d2[s]) {
      DirectBinds(cfg, u, byz, d1, s, d2[s]);
    } else {
      var n1: nat, a1 :| AnchorSlot(cfg, u, d1, s, n1, a1) && ByAnchor(cfg, u, s, a1, d1[s]);
      var n2: nat, a2 :| AnchorSlot(cfg, u, d2, s, n2, a2) && ByAnchor(cfg, u, s, a2, d2[s]);
      var m := if n1 <= n2 then n1 else n2;
      LaterRoundLaterSlot(s, n, m);
      FewerSlotsAbove(d1, n, m);
      if SlotAt(m) in d1 && SlotAt(m) in d2 { TablesAgreeAt(cfg, u, byz, d1, d2, m); }
      AnchorsCoincide(cfg, u, d1, d2, s, n1, a1, n2, a2);
      SameAnchorSameDecision(cfg, u, byz, s, a1, d1[s], d2[s]);
    }
  }

  lemma SameAnchorSameDecision(cfg: Setup, u: Graph, byz: set<Author>, s: Slot, anchor: Digest, d: Decision,
                               e: Decision)
    requires Universe(cfg.committee, u, byz)
    requires ByAnchor(cfg, u, s, anchor, d) && ByAnchor(cfg, u, s, anchor, e)
    ensures d == e
  {
    if d.Commit? && e.Commit? { AnchorCommitUnique(cfg, u, byz, s, anchor, d.leader, anchor, e.leader); }
  }

  // ---------------------------------------------------------------- from a view to the universe

  lemma CandidateCertificateGrows(cfg: Setup, g: Graph, u: Graph, s: Slot, l: Digest)
    requires View(g, u) && RoundsDescend(u)
    ensures CertifyingAuthors(cfg, g, s, l) <= CertifyingAuthors(cfg, u, s, l)
  {
    forall a | a in CertifyingAuthors(cfg, g, s, l) ensures a in CertifyingAuthors(cfg, u, s, l) {
      var c :| c in g && Certificate(cfg, g, s, l, c) && g[c].author == a;
      CertifiesStable(cfg.committee, g, u, c, l);
      assert Certificate(cfg, u, s, l, c);
    }
  }

  lemma NonVotersGrow(cfg: Setup, g: Graph, u: Graph, s: Slot)
    requires View(g, u) && RoundsDescend(u)
    ensures NonVotingAuthors(cfg, g, s) <= NonVotingAuthors(cfg, u, s)
  {
    forall a | a in NonVotingAuthors(cfg, g, s) ensures a in NonVotingAuthors(cfg, u, s) {
      var v :| v in g && NonVote(cfg, g, s, v) && g[v].author == a;
      SupportStable(g, u, v, cfg.Leader(s), s.round);
      assert NonVote(cfg, u, s, v);
    }
  }

  lemma DirectlyGrows(cfg: Setup, g: Graph, u: Graph, s: Slot, d: Decision)
    requires View(g, u) && RoundsDescend(u)
    requires Directly(cfg, g, s, d)
    ensures Directly(cfg, u, s, d)
  {
    if d.Commit? {
      CandidateCertificateGrows(cfg, g, u, s, d.leader);
      WeightMonotone(cfg.committee, CertifyingAuthors(cfg, g, s, d.leader), CertifyingAuthors(cfg, u, s, d.leader));
    } else {
      NonVotersGrow(cfg, g, u, s);
      WeightMonotone(cfg.committee, NonVotingAuthors(cfg, g, s), NonVotingAuthors(cfg, u, s));
    }
  }

  /** A certificate inside a view has its leader inside the view too. */
  lemma CertificateLeaderInside(cfg: Setup, g: Graph, u: Graph, s: Slot, l: Digest, c: Digest)
    requires View(g, u) && RoundsDescend(u)
    requires c in g && Certificate(cfg, u, s, l, c)
    ensures l in g && Certificate(cfg, g, s, l, c)
  {
    var vs := Voters(u, c, l, |u[c].parents|);
    var a := Least(vs);
    var i :| 0 <= i < |u[c].parents| && VotesAt(u, c, l, i) && u[u[c].parents[i]].author == a;
    var v := u[c].parents[i];
    assert v in g[c].parents;
    SupportSound(u, v, u[l].author, u[l].round);
    LinkedStaysInside(g, u, v, l);
    CertifiesComplete(cfg.committee, g, c, l);
    CertifiesStable(cfg.committee, g, u, c, l);
  }

  /** What an anchor decides depends on its history alone: same answer in view and universe. */
  lemma AnchorHistoryDetermined(cfg: Setup, g: Graph, u: Graph, s: Slot, anchor: Digest, l: Digest)
    requires View(g, u) && RoundsDescend(u) && anchor in g
    ensures AnchorCommits(cfg, g, s, anchor, l) <==> AnchorCommits(cfg, u, s, anchor, l)
  {
    if AnchorCommits(cfg, g, s, anchor, l) {
      var c :| Certificate(cfg, g, s, l, c) && Linked(g, anchor, c) == Some(true);
      CertifiesStable(cfg.committee, g, u, c, l);
      LinkedStable(g, u, anchor, c);
      assert Certificate(cfg, u, s, l, c);
    }
    if AnchorCommits(cfg, u, s, anchor, l) {
      var c :| Certificate(cfg, u, s, l, c) && Linked(u, anchor, c) == Some(true);
      LinkedStaysInside(g, u, anchor, c);
      CertificateLeaderInside(cfg, g, u, s, l, c);
    }
  }

  /** A leader directly committed in one view is what every later anchor commits in any view. */
  lemma DirectCommitInevitableEverywhere(cfg: Setup, u: Graph, byz: set<Author>, g1: Graph, g2: Graph,
                                         s: Slot, l: Digest, anchor: Digest)
    requires Universe(cfg.committee, u, byz) && View(g1, u) && View(g2, u)
    requires DirectCommit(cfg, g1, s, l)
    requires anchor in g2 && g2[anchor].round > cfg.DecisionRound(s)
    ensures AnchorCommits(cfg, g2, s, anchor, l) && !AnchorSkips(cfg, g2, s, anchor)
    ensures forall k :: AnchorCommits(cfg, g2, s, anchor, k) ==> k == l
  {
    DirectlyGrows(cfg, g1, u, s, Commit(l));
    DirectCommitInevitable(cfg, u, byz, s, l, anchor);
    AnchorHistoryDetermined(cfg, g2, u, s, anchor, l);
    forall k | AnchorCommits(cfg, g2, s, anchor, k) ensures k == l {
      AnchorHistoryDetermined(cfg, g2, u, s, anchor, k);
      AnchorCommitUnique(cfg, u, byz, s, anchor, k, anchor, l);
    }
  }

  lemma IndirectlyGrows(cfg: Setup, g: Graph, u: Graph, ds: Decisions, es: Decisions, s: Slot, d: Decision)
    requires View(g, u) && RoundsDescend(u)
    requires forall t :: t in ds ==> t in es && es[t] == ds[t]
    requires Indirectly(cfg, g, ds, s, d)
    ensures Indirectly(cfg, u, es, s, d)
  {
    var n: nat, anchor :| AnchorSlot(cfg, g, ds, s, n, anchor) && ByAnchor(cfg, g, s, anchor, d);
    forall l ensures AnchorCommits(cfg, g, s, anchor, l) <==> AnchorCommits(cfg, u, s, anchor, l) {
      AnchorHistoryDetermined(cfg, g, u, s, anchor, l);
    }
    assert AnchorSlot(cfg, u, es, s, n, anchor) && ByAnchor(cfg, u, s, anchor, d);
  }

  /** A justified table stays justified as the graph grows. */
  lemma JustifiedGrows(cfg: Setup, g: Graph, u: Graph, ds: Decisions)
    requires View(g, u) && RoundsDescend(u)
    requires Justified(cfg, g, ds)
    ensures Justified(cfg, u, ds)
  {
    forall s | s in ds ensures Directly(cfg, u, s, ds[s]) || Indirectly(cfg, u, ds, s, ds[s]) {
      if Directly(cfg, g, s, ds[s]) {
        DirectlyGrows(cfg, g, u, s, ds[s]);
      } else {
        IndirectlyGrows(cfg, g, u, ds, ds, s, ds[s]);
      }
    }
  }

  /** Recording one more justified decision keeps the table justified. */
  lemma JustifiedRecord(cfg: Setup, g: Graph, ds: Decisions, s: Slot, d: Decision)
    requires RoundsDescend(g) && Closed(g) && Justified(cfg, g, ds) && ProperSlot(s)
    requires s in ds ==> ds[s] == d
    requires Directly(cfg, g, s, d) || Indirectly(cfg, g, ds, s, d)
    ensures Justified(cfg, g, ds[s := d])
  {
    var es := ds[s := d];
    forall t | t in es ensures Directly(cfg, g, t, es[t]) || Indirectly(cfg, g, es, t, es[t]) {
      if !Directly(cfg, g, t, es[t]) { IndirectlyGrows(cfg, g, g, ds, es, t, es[t]); }
    }
  }

  /** Agreement: whatever two nodes see of one universe, and whenever they decide, a slot
      decided by both has one decision. */
  lemma MahiAgreement(cfg: Setup, u: Graph, byz: set<Author>,
                      g1: Graph, d1: Decisions, g2: Graph, d2: Decisions, s: Slot)
    requires Universe(cfg.committee, u, byz) && View(g1, u) && View(g2, u)
    requires Justified(cfg, g1, d1) && Justified(cfg, g2, d2)
    requires s in d1 && s in d2
    ensures d1[s] == d2[s]
  {
    JustifiedGrows(cfg, g1, u, d1);
    JustifiedGrows(cfg, g2, u, d2);
    SlotOrder(s, 0);
    TablesAgreeAt(cfg, u, byz, d1, d2, Ordinal(s));
  }
}
