/** The Mahi-Mahi committer: an imperative pass over the pending slots, proved to keep a
    justified decision table and to emit exactly the stream of `MahiOrder`. */
module MahiCommit {
  import opened Quorums
  import opened MahiGraph
  import opened MahiStore
  import opened MahiSafety
  import opened MahiOrder
  import opened Sorting

  // ---------------------------------------------------------------- what one pass must achieve

  /** Evidence that would make a safety assertion of the source fail. */
  ghost predicate Conflict(cfg: Setup, g: Graph)
    requires RoundsDescend(g)
  {
    exists s, l1, l2, c1, c2 ::
      && l1 != l2 && Candidate(cfg, g, s, l1) && Candidate(cfg, g, s, l2)
      && Certificate(cfg, g, s, l1, c1) && Certificate(cfg, g, s, l2, c2)
  }

  /** No view of a universe within the fault bound can make a safety assertion fail. */
  lemma NoConflict(cfg: Setup, u: Graph, byz: set<Author>, g: Graph)
    requires Universe(cfg.committee, u, byz) && View(g, u)
    ensures !Conflict(cfg, g)
  {
    forall s, l1, l2, c1, c2 |
      && l1 != l2 && Candidate(cfg, g, s, l1) && Candidate(cfg, g, s, l2)
      && Certificate(cfg, g, s, l1, c1) && Certificate(cfg, g, s, l2, c2)
      ensures false
    {
      CertifiesStable(cfg.committee, g, u, c1, l1);
      CertifiesStable(cfg.committee, g, u, c2, l2);
      CertifiedUnique(cfg.committee, u, byz, c1, l1, c2, l2);
    }
  }

  ghost predicate NoDirectEvidence(cfg: Setup, g: Graph, s: Slot)
    requires RoundsDescend(g)
  {
    (forall l :: !DirectCommit(cfg, g, s, l)) && !DirectSkip(cfg, g, s)
  }

  ghost predicate NoAnchorBelow(cfg: Setup, g: Graph, ds: Decisions, s: Slot, hi: nat) {
    forall n: nat, anchor :: n < hi ==> !AnchorSlot(cfg, g, ds, s, n, anchor)
  }

  /** A slot left undecided has no direct evidence and no anchor among the slots below `hi`. */
  ghost predicate Resolved(cfg: Setup, g: Graph, ds: Decisions, s: Slot, hi: nat)
    requires RoundsDescend(g)
  {
    s in ds || (NoDirectEvidence(cfg, g, s) && NoAnchorBelow(cfg, g, ds, s, hi))
  }

  /** Deciding a lower slot changes nothing for the anchors of a higher one. */
  lemma ResolvedKept(cfg: Setup, g: Graph, ds: Decisions, k: nat, d: Decision, j: nat, hi: nat)
    requires RoundsDescend(g) && k < j && Resolved(cfg, g, ds, SlotAt(j), hi)
    ensures Resolved(cfg, g, ds[SlotAt(k) := d], SlotAt(j), hi)
  {
    var s, es := SlotAt(j), ds[SlotAt(k) := d];
    if s !in es {
      forall n: nat, anchor | n < hi ensures !AnchorSlot(cfg, g, es, s, n, anchor) {
        assert !AnchorSlot(cfg, g, ds, s, n, anchor);
        assert SlotAt(k).round <= s.round <= cfg.DecisionRound(s);
      }
    }
  }

  ghost function Lookup(ds: Decisions, s: Slot): Decision { if s in ds then ds[s] else Undecided }

  function AtRound(g: Graph, r: Round): set<Digest> { set d | d in g && g[d].round == r }

  ghost function CertifyingIn(cfg: Setup, g: Graph, s: Slot, l: Digest, blocks: set<Digest>): set<Author>
    requires RoundsDescend(g)
  {
    set c | c in blocks && Certificate(cfg, g, s, l, c) :: g[c].author
  }

  lemma CertifyingInStep(cfg: Setup, g: Graph, s: Slot, l: Digest, blocks: set<Digest>, c: Digest)
    requires RoundsDescend(g)
    ensures CertifyingIn(cfg, g, s, l, blocks + {c}) ==
            CertifyingIn(cfg, g, s, l, blocks) + (if Certificate(cfg, g, s, l, c) then {g[c].author} else {})
  {
  }

  ghost function NonVotingIn(cfg: Setup, g: Graph, s: Slot, blocks: set<Digest>): set<Author>
    requires RoundsDescend(g)
  {
    set v | v in blocks && NonVote(cfg, g, s, v) :: g[v].author
  }

  lemma NonVotingInStep(cfg: Setup, g: Graph, s: Slot, blocks: set<Digest>, v: Digest)
    requires RoundsDescend(g)
    ensures NonVotingIn(cfg, g, s, blocks + {v}) ==
            NonVotingIn(cfg, g, s, blocks) + (if NonVote(cfg, g, s, v) then {g[v].author} else {})
  {
  }

  lemma CertifyingWithin(cfg: Setup, g: Graph, s: Slot, l: Digest, blocks: set<Digest>)
    requires RoundsDescend(g)
    ensures cfg.committee.Weight(CertifyingIn(cfg, g, s, l, blocks)) <= cfg.committee.Weight(CertifyingAuthors(cfg, g,
              s, l))
  {
    WeightMonotone(cfg.committee, CertifyingIn(cfg, g, s, l, blocks), CertifyingAuthors(cfg, g, s, l));
  }

  lemma NonVotingWithin(cfg: Setup, g: Graph, s: Slot, blocks: set<Digest>)
    requires RoundsDescend(g)
    ensures cfg.committee.Weight(NonVotingIn(cfg, g, s, blocks)) <= cfg.committee.Weight(NonVotingAuthors(cfg, g, s))
  {
    WeightMonotone(cfg.committee, NonVotingIn(cfg, g, s, blocks), NonVotingAuthors(cfg, g, s));
  }

  /** Add an author to a running tally, counting its stake once. */
  method CountAuthor(c: Committee, authors: set<Author>, stake: nat, author: Author)
    returns (authors': set<Author>, stake': nat)
    requires stake == c.Weight(authors)
    ensures authors' == authors + {author} && stake' == c.Weight(authors')
  {
    authors', stake' := authors + {author}, stake;
    if author !in authors {
      WeightAdd(c, authors, author);
      stake' := stake + c.Stake(author);
    } else {
      assert authors' == authors;
    }
  }

  ghost predicate AnchoredCertificate(cfg: Setup, g: Graph, s: Slot, anchor: Digest, l: Digest, c: Digest)
    requires RoundsDescend(g)
  {
    Certificate(cfg, g, s, l, c) && Linked(g, anchor, c) == Some(true)
  }

  lemma TwoCommitsConflict(cfg: Setup, g: Graph, s: Slot, l: Digest, m: Digest)
    requires RoundsDescend(g) && l != m && DirectCommit(cfg, g, s, l) && DirectCommit(cfg, g, s, m)
    ensures Conflict(cfg, g)
  {
    var c1 := DirectCommitCertificate(cfg, g, s, l);
    var c2 := DirectCommitCertificate(cfg, g, s, m);
  }

  lemma AnchorConflict(cfg: Setup, g: Graph, s: Slot, anchor: Digest, l1: Digest, l2: Digest)
    requires RoundsDescend(g) && l1 != l2
    requires AnchorCommits(cfg, g, s, anchor, l1) && AnchorCommits(cfg, g, s, anchor, l2)
    ensures Conflict(cfg, g)
  {
    var c1 :| Certificate(cfg, g, s, l1, c1) && Linked(g, anchor, c1) == Some(true);
    var c2 :| Certificate(cfg, g, s, l2, c2) && Linked(g, anchor, c2) == Some(true);
  }

  /** Every slot before `n` and above the decision round of `s` is recorded as skipped. */
  ghost predicate SkippedUpTo(cfg: Setup, ds: Decisions, s: Slot, n: nat) {
    forall k :: 0 <= k < n && SlotAt(k).round > cfg.DecisionRound(s) ==> SlotAt(k) in ds && ds[SlotAt(k)] == Skip
  }

  /** An undecided slot at `n`, reached over skipped ones, blocks every anchor. */
  lemma BlockedAnchor(cfg: Setup, g: Graph, ds: Decisions, s: Slot, n: nat, hi: nat)
    requires SkippedUpTo(cfg, ds, s, n)
    requires SlotAt(n).round > cfg.DecisionRound(s) && Lookup(ds, SlotAt(n)) == Undecided
    ensures NoAnchorBelow(cfg, g, ds, s, hi)
  {
    forall m: nat, anchor | m < hi ensures !AnchorSlot(cfg, g, ds, s, m, anchor) {
      if m < n { assert SlotAt(m).round > cfg.DecisionRound(s) ==> ds[SlotAt(m)] == Skip; }
    }
  }

  lemma NothingAnchored(cfg: Setup, g: Graph, s: Slot, anchor: Digest, l: Digest)
    requires RoundsDescend(g)
    requires forall c :: c in AtRound(g, cfg.DecisionRound(s)) ==> !AnchoredCertificate(cfg, g, s, anchor, l, c)
    ensures !AnchorCommits(cfg, g, s, anchor, l)
  {
    if AnchorCommits(cfg, g, s, anchor, l) {
      var c :| Certificate(cfg, g, s, l, c) && Linked(g, anchor, c) == Some(true);
      CertificateRound(cfg, g, s, l, c);
    }
  }

  lemma CertificateRound(cfg: Setup, g: Graph, s: Slot, l: Digest, c: Digest)
    requires RoundsDescend(g) && Certificate(cfg, g, s, l, c)
    ensures c in AtRound(g, cfg.DecisionRound(s))
  {
  }

  /** Scan later records for the first slot above the decision round that is not skipped. */
  method FirstAnchor(cfg: Setup, ghost g: Graph, ghost ds: Decisions, s: Slot, later: seq<Decision>, first: nat)
    returns (anchor: Option<Digest>)
    requires forall t, l :: t in ds && ds[t] == Commit(l) ==> Candidate(cfg, g, t, l)
    requires first > 0 && s == SlotAt(first - 1)
    requires forall j :: 0 <= j < |later| ==> later[j] == Lookup(ds, SlotAt(first + j))
    ensures anchor == None ==> NoAnchorBelow(cfg, g, ds, s, first + |later|)
    ensures anchor.Some? ==> exists n: nat :: AnchorSlot(cfg, g, ds, s, n, anchor.value)
  {
    NoneAboveBefore(cfg, ds, s, first);
    var j := 0;
    while j < |later|
      invariant 0 <= j <= |later|
      invariant SkippedUpTo(cfg, ds, s, first + j)
    {
      SkippedStep(cfg, ds, s, first + j);
      var slot := SlotAt(first + j);
      if slot.round > cfg.DecisionRound(s) {
        match later[j]
        case Skip =>
        case Undecided =>
          BlockedAnchor(cfg, g, ds, s, first + j, first + |later|);
          return None;
        case Commit(a) =>
          assert AnchorSlot(cfg, g, ds, s, first + j, a);
          return Some(a);
      }
      j := j + 1;
    }
    AllSkippedNoAnchor(cfg, g, ds, s, first + |later|);
    return None;
  }

  lemma NoneAboveBefore(cfg: Setup, ds: Decisions, s: Slot, n: nat)
    requires n > 0 && s == SlotAt(n - 1)
    ensures SkippedUpTo(cfg, ds, s, n)
  {
  }

  lemma SkippedStep(cfg: Setup, ds: Decisions, s: Slot, n: nat)
    requires SkippedUpTo(cfg, ds, s, n)
    ensures SlotAt(n).round <= cfg.DecisionRound(s) || Lookup(ds, SlotAt(n)) == Skip ==> SkippedUpTo(cfg, ds, s, n + 1)
  {
  }

  lemma AllSkippedNoAnchor(cfg: Setup, g: Graph, ds: Decisions, s: Slot, hi: nat)
    requires SkippedUpTo(cfg, ds, s, hi)
    ensures NoAnchorBelow(cfg, g, ds, s, hi)
  {
  }

  lemma CommitsAreCandidates(cfg: Setup, g: Graph, ds: Decisions)
    requires RoundsDescend(g) && Justified(cfg, g, ds)
    ensures forall s, l :: s in ds && ds[s] == Commit(l) ==> Candidate(cfg, g, s, l)
  {
  }

  /** Worklist walk over parents, stopping at emitted blocks. */
  method Unemitted(g: Graph, leader: Digest, emitted: set<Digest>) returns (reachable: set<Digest>)
    requires RoundsDescend(g) && Closed(g) && leader in g && CausallyClosed(g, emitted)
    ensures reachable == History(g, leader) - emitted
  {
    hide History, Linked, Frontier, CausallyClosed, RoundsDescend, Closed;
    reachable := {};
    var stack := [leader];
    FrontierStart(g, leader, emitted);
    assert Elems([leader]) == {leader} && reachable + emitted == emitted;
    while stack != []
      invariant Elems(stack) <= History(g, leader)
      invariant reachable <= History(g, leader) - emitted
      invariant Frontier(g, leader, reachable + emitted, Elems(stack))
      decreases g.Keys - reachable, |stack|
    {
      var digest, rest := stack[|stack| - 1], stack[..|stack| - 1];
      assert stack == rest + [digest];
      ElemsConcat(rest, [digest]);
      assert Elems([digest]) == {digest};
      assert digest in Elems(stack);
      FrontierStep(g, leader, reachable + emitted, Elems(rest), digest);
      HistoryStep(g, leader, digest);
      stack := rest;
      if digest !in emitted && digest !in reachable {
        stack := rest + g[digest].parents;
        ElemsConcat(rest, g[digest].parents);
        assert (reachable + {digest}) + emitted == (reachable + emitted) + {digest};
        reachable := reachable + {digest};
      }
    }
    assert Elems([]) == {};
    FrontierDone(g, leader, reachable, emitted);
  }

  lemma FrontierStart(g: Graph, leader: Digest, emitted: set<Digest>)
    requires RoundsDescend(g) && leader in g && CausallyClosed(g, emitted)
    ensures leader in History(g, leader)
    ensures Frontier(g, leader, emitted, {leader})
  {
  }

  lemma HistoryStep(g: Graph, leader: Digest, d: Digest)
    requires RoundsDescend(g) && Closed(g) && leader in g && d in History(g, leader)
    ensures d in g && Elems(g[d].parents) <= History(g, leader)
  {
    HistoryClosed(g, leader);
  }

  /** Everything below `seen` is seen or still on the stack. */
  ghost predicate Frontier(g: Graph, leader: Digest, seen: set<Digest>, stack: set<Digest>) {
    && leader in seen + stack
    && forall d, p :: d in seen && d in g && p in g[d].parents ==> p in seen + stack
  }

  lemma FrontierStep(g: Graph, leader: Digest, seen: set<Digest>, stack: set<Digest>, d: Digest)
    requires Frontier(g, leader, seen, stack + {d})
    ensures d in seen ==> Frontier(g, leader, seen, stack)
    ensures d in g ==> Frontier(g, leader, seen + {d}, stack + Elems(g[d].parents))
  {
    if d in g {
      forall e, p | e in seen + {d} && e in g && p in g[e].parents
        ensures p in (seen + {d}) + (stack + Elems(g[d].parents))
      {
        if e in seen { assert p in seen + (stack + {d}); }
      }
    }
    if d in seen {
      forall e, p | e in seen && e in g && p in g[e].parents ensures p in seen + stack {
        assert p in seen + (stack + {d});
      }
    }
  }

  lemma FrontierDone(g: Graph, leader: Digest, reachable: set<Digest>, emitted: set<Digest>)
    requires RoundsDescend(g) && reachable <= History(g, leader) - emitted
    requires Frontier(g, leader, reachable + emitted, {})
    ensures reachable == History(g, leader) - emitted
  {
    var all := reachable + emitted;
    assert CausallyClosed(g, all);
    forall d | d in History(g, leader) ensures d in all { PathStaysInside(g, all, leader, d); }
  }

  /** Can the leaders of a wave be known from the blocks of its coin round? */
  type Reveal = (Round, set<Digest>) -> bool

  /** The decision round of the slot has been reached and its leaders are known. */
  ghost predicate Pending(cfg: Setup, revealed: Reveal, g: Graph, s: Slot) {
    RoundReached(g, cfg.DecisionRound(s)) && revealed(cfg.DecisionRound(s), AtRound(g, cfg.DecisionRound(s)))
  }

  ghost predicate RoundReached(g: Graph, r: Round) {
    exists d :: d in g && g[d].round >= r
  }

  /** On rounds: some block is at least `wave - 1` rounds above the slot, and the blocks of that round
      reveal the leaders. */
  lemma PendingMeans(cfg: Setup, revealed: Reveal, g: Graph, s: Slot, blocks: set<Digest>)
    requires forall d :: d in blocks <==> d in g && g[d].round == s.round + cfg.wave - 1
    ensures Pending(cfg, revealed, g, s) <==>
            && (exists d :: d in g && g[d].round >= s.round + cfg.wave - 1)
            && revealed(s.round + cfg.wave - 1, blocks)
  {
    assert blocks == AtRound(g, s.round + cfg.wave - 1);
  }

  lemma HighestReached(g: Graph, highest: Round)
    requires forall d :: d in g ==> g[d].round <= highest
    requires highest == 0 || exists d :: d in g && g[d].round == highest
    ensures forall r: Round :: r > 0 ==> (RoundReached(g, r) <==> r <= highest)
  {
  }

  /** `slots` are the `n`-th slot and its successors, all pending. */
  ghost predicate PendingRun(cfg: Setup, revealed: Reveal, g: Graph, n: nat, slots: seq<Slot>) {
    forall i :: 0 <= i < |slots| ==> slots[i] == SlotAt(n + i) && Pending(cfg, revealed, g, slots[i])
  }

  lemma PendingAppend(cfg: Setup, revealed: Reveal, g: Graph, n: nat, slots: seq<Slot>, s: Slot)
    requires PendingRun(cfg, revealed, g, n, slots)
    requires s == SlotAt(n + |slots|) && Pending(cfg, revealed, g, s)
    ensures PendingRun(cfg, revealed, g, n, slots + [s])
  {
  }

  function NextSlot(last: Option<Slot>): Slot {
    match last
    case None => Slot(1, 0)
    case Some(s) => if s.index + 1 < LEADER_COUNT then Slot(s.round, s.index + 1) else Slot(s.round + 1, 0)
  }

  /** Collect pending slots from the `n`-th on. */
  method ScanPending(cfg: Setup, revealed: Reveal, g: Graph, highest: Round, first: Slot, ghost n: nat)
    returns (slots: seq<Slot>)
    requires first == SlotAt(n)
    requires forall r: Round :: r > 0 ==> (RoundReached(g, r) <==> r <= highest)
    ensures PendingRun(cfg, revealed, g, n, slots)
    ensures !Pending(cfg, revealed, g, SlotAt(n + |slots|))
  {
    slots := [];
    if highest + 1 < cfg.wave {
      return;
    }
    var maxLeaderRound := highest - (cfg.wave - 1);
    var slot := first;
    while slot.round <= maxLeaderRound
      invariant PendingRun(cfg, revealed, g, n, slots)
      invariant slot == SlotAt(n + |slots|)
      decreases maxLeaderRound + 1 - slot.round, LEADER_COUNT - slot.index
    {
      var coinRound := cfg.DecisionRound(slot);
      if !revealed(coinRound, AtRound(g, coinRound)) {
        return;
      }
      PendingAppend(cfg, revealed, g, n, slots, slot);
      SlotAfter(slot, n + |slots|);
      slots := slots + [slot];
      slot := NextSlot(Some(slot));
    }
  }

  lemma FirstUnconsumed(last: Option<Slot>)
    requires last.Some? ==> ProperSlot(last.value)
    ensures NextSlot(last) == SlotAt(if last == None then 0 else Ordinal(last.value) + 1)
  {
  }

  lemma SlotAfter(s: Slot, n: nat)
    requires s == SlotAt(n)
    ensures SlotAt(n + 1) == NextSlot(Some(s))
  {
  }

  /** Recorded decisions are never changed or dropped. */
  ghost predicate Recorded(ds: Decisions, es: Decisions) {
    forall s :: s in ds ==> s in es && es[s] == ds[s]
  }

  /** The records are the table entries of the `n`-th slot and its successors. */
  ghost predicate MatchTable(records: seq<Decision>, ds: Decisions, n: nat) {
    forall j :: 0 <= j < |records| ==> records[j] == Lookup(ds, SlotAt(n + j))
  }

  ghost predicate AllResolved(cfg: Setup, g: Graph, ds: Decisions, lo: nat, hi: nat)
    requires RoundsDescend(g)
  {
    forall k :: lo <= k < hi ==> Resolved(cfg, g, ds, SlotAt(k), hi)
  }

  lemma MatchTableStep(records: seq<Decision>, ds: Decisions, n: nat, d: Decision)
    requires MatchTable(records, ds, n + 1)
    requires SlotAt(n) in ds ==> ds[SlotAt(n)] == d
    ensures d != Undecided ==> MatchTable([d] + records, ds[SlotAt(n) := d], n)
    ensures d == Undecided && Lookup(ds, SlotAt(n)) == d ==> MatchTable([d] + records, ds, n)
  {
    forall j | 1 <= j < |records| + 1
      ensures SlotAt(n + j) != SlotAt(n) && ([d] + records)[j] == Lookup(ds, SlotAt(n + j))
    {
      SlotOrder(SlotAt(n), n);
      SlotOrder(SlotAt(n), n + j);
      assert records[j - 1] == Lookup(ds, SlotAt(n + 1 + (j - 1)));
    }
  }

  lemma AllResolvedStep(cfg: Setup, g: Graph, ds: Decisions, n: nat, d: Decision, hi: nat)
    requires RoundsDescend(g) && AllResolved(cfg, g, ds, n + 1, hi)
    ensures AllResolved(cfg, g, ds[SlotAt(n) := d], n, hi)
  {
    hide SlotAt, NoDirectEvidence, NoAnchorBelow;
    forall k | n < k < hi ensures Resolved(cfg, g, ds[SlotAt(n) := d], SlotAt(k), hi) {
      ResolvedKept(cfg, g, ds, n, d, k, hi);
    }
  }

  lemma StreamClosed(g: Graph, genesis: set<Digest>, ds: Decisions, n: nat)
    requires RoundsDescend(g) && Closed(g) && DecidedPrefix(g, ds, n) && CausallyClosed(g, genesis)
    ensures CausallyClosed(g, genesis + Elems(Stream(g, genesis, ds, n)))
  {
    hide Stream, DecidedPrefix, CausallyClosed, RoundsDescend, Closed, CausalOrder, Distinct, Elems;
    StreamSound(g, genesis, ds, n);
  }

  /** Consuming one more decided slot appends its batch. */
  lemma StreamNext(g: Graph, genesis: set<Digest>, ds: Decisions, n: nat, batch: seq<Digest>)
    requires RoundsDescend(g) && DecidedPrefix(g, ds, n) && SlotAt(n) in ds && ds[SlotAt(n)] != Undecided
    requires ds[SlotAt(n)].Commit? ==> ds[SlotAt(n)].leader in g
    requires var before := Stream(g, genesis, ds, n);
             batch == if ds[SlotAt(n)].Commit? then Batch(g, ds[SlotAt(n)].leader, genesis + Elems(before)) else []
    ensures DecidedPrefix(g, ds, n + 1)
    ensures var before := Stream(g, genesis, ds, n);
            && Stream(g, genesis, ds, n + 1) == before + batch
            && genesis + Elems(before + batch) == (genesis + Elems(before)) + Elems(batch)
    ensures Elems([]) == {}
  {
    hide RoundsDescend, Batch, SlotAt;
    ElemsConcat(Stream(g, genesis, ds, n), batch);
  }

  lemma DecidedEntries(cfg: Setup, g: Graph, ds: Decisions)
    requires RoundsDescend(g) && Justified(cfg, g, ds)
    ensures forall s :: s in ds ==> ds[s] != Undecided && (ds[s].Commit? ==> ds[s].leader in g)
  {
  }

  /** Recording more decisions leaves the consumed part of the stream alone. */
  lemma StreamKept(g: Graph, genesis: set<Digest>, ds: Decisions, es: Decisions, n: nat)
    requires RoundsDescend(g) && DecidedPrefix(g, ds, n) && Recorded(ds, es)
    ensures DecidedPrefix(g, es, n) && Stream(g, genesis, ds, n) == Stream(g, genesis, es, n)
  {
    StreamByDecisions(g, genesis, ds, es, n);
  }

  /** A pass that started with `n` slots consumed and ended with `m`: it saw all pending slots
      below some `hi`, left none of them undecided without reason, and consumed exactly the
      decided prefix. */
  ghost predicate PassComplete(cfg: Setup, revealed: Reveal, g: Graph, ds: Decisions, n: nat, m: nat)
    requires RoundsDescend(g)
  {
    exists hi: nat :: PassUpTo(cfg, revealed, g, ds, n, m, hi)
  }

  ghost predicate PassUpTo(cfg: Setup, revealed: Reveal, g: Graph, ds: Decisions, n: nat, m: nat, hi: nat)
    requires RoundsDescend(g)
  {
    && n <= m <= hi
    && !Pending(cfg, revealed, g, SlotAt(hi))
    && (forall k :: n <= k < hi ==> Pending(cfg, revealed, g, SlotAt(k)))
    && AllResolved(cfg, g, ds, n, hi)
    && (m == hi || SlotAt(m) !in ds)
  }

  lemma PassDone(cfg: Setup, revealed: Reveal, g: Graph, ds: Decisions, n: nat, m: nat, slots: seq<Slot>)
    requires RoundsDescend(g) && PendingRun(cfg, revealed, g, n, slots)
    requires !Pending(cfg, revealed, g, SlotAt(n + |slots|))
    requires AllResolved(cfg, g, ds, n, n + |slots|)
    requires n <= m <= n + |slots| && (m == n + |slots| || SlotAt(m) !in ds)
    ensures PassComplete(cfg, revealed, g, ds, n, m)
  {
    hide SlotAt, Pending, AllResolved;
    var hi := n + |slots|;
    forall k | n <= k < hi ensures Pending(cfg, revealed, g, SlotAt(k)) {
      assert slots[k - n] == SlotAt(n + (k - n));
    }
    assert PassUpTo(cfg, revealed, g, ds, n, m, hi);
  }

  /** A block may be delivered once its whole history has been. */
  ghost predicate Deliverable(g: Graph, block: Block) {
    forall p :: p in block.parents ==> p in g && g[p].round < block.round
  }

  ghost function DeliverOne(g: Graph, b: (Digest, Block)): Graph { if b.0 in g then g else g[b.0 := b.1] }

  ghost function DeliverAll(g: Graph, bs: seq<(Digest, Block)>): Graph
    decreases |bs|
  {
    if bs == [] then g else DeliverAll(DeliverOne(g, bs[0]), bs[1..])
  }

  /** Each block is delivered after its whole history. */
  ghost predicate HistoryFirst(g: Graph, bs: seq<(Digest, Block)>)
    decreases |bs|
  {
    bs == [] || (Deliverable(g, bs[0].1) && HistoryFirst(DeliverOne(g, bs[0]), bs[1..]))
  }

  lemma {:induction false} DeliverAllExtends(g: Graph, bs: seq<(Digest, Block)>)
    ensures Extends(g, DeliverAll(g, bs))
    decreases |bs|
  {
    if bs != [] { DeliverAllExtends(DeliverOne(g, bs[0]), bs[1..]); }
  }

  /** The graph is part of a universe within the fault bound. */
  ghost predicate WithinFaultBound(c: Committee, g: Graph) {
    exists u, byz :: Universe(c, u, byz) && Extends(g, u)
  }

  /** Within the fault bound no part of the graph can make a safety assertion fail. */
  lemma NoConflictWithin(cfg: Setup, g: Graph, all: Graph)
    requires RoundsDescend(g) && Closed(g) && Extends(g, all)
    ensures WithinFaultBound(cfg.committee, all) ==> !Conflict(cfg, g)
  {
    hide Universe, Conflict;
    if u, byz :| Universe(cfg.committee, u, byz) && Extends(all, u) {
      NoConflict(cfg, u, byz, g);
    }
  }

  class MahiCommitter {
    const cfg: Setup
    const gcDepth: nat
    const revealed: Reveal
    const dag: MahiDag
    ghost const genesis: set<Digest>
    var decisions: Decisions
    var lastDecided: Option<Slot>
    var emitted: set<Digest>
    ghost var output: seq<Digest>

    /** The store answers queries and holds complete history. */
    ghost predicate Ready()
      reads this, dag
    {
      dag.Valid() && dag.committee == cfg.committee && RoundsDescend(dag.byDigest) && Closed(dag.byDigest)
    }

    /** How many slots have been consumed, in order, from 1.0. */
    function Consumed(): nat
      requires lastDecided.Some? ==> ProperSlot(lastDecided.value)
      reads this
    {
      if lastDecided == None then 0 else Ordinal(lastDecided.value) + 1
    }

    /** Consumption and emission match the decision table. */
    ghost predicate Emitting()
      requires RoundsDescend(dag.byDigest)
      reads this, dag
    {
      && (lastDecided.Some? ==> ProperSlot(lastDecided.value))
      && DecidedPrefix(dag.byDigest, decisions, Consumed())
      && output == Stream(dag.byDigest, genesis, decisions, Consumed())
      && emitted == genesis + Elems(output)
    }

    ghost predicate Valid()
      reads this, dag
    {
      && Ready()
      && genesis <= dag.byDigest.Keys && CausallyClosed(dag.byDigest, genesis)
      && Justified(cfg, dag.byDigest, decisions)
      && Emitting()
    }

    constructor (cfg: Setup, gcDepth: nat, revealed: Reveal, genesis: seq<(Digest, Block)>)
      requires forall i :: 0 <= i < |genesis| ==> genesis[i].1.parents == []
      ensures Valid() && fresh(dag)
      ensures this.cfg == cfg && this.gcDepth == gcDepth && this.revealed == revealed
      ensures this.genesis == dag.byDigest.Keys == Digests(genesis)
      ensures forall d :: d in dag.byDigest ==> (d, dag.byDigest[d]) in genesis
      ensures decisions == map[] && lastDecided == None && output == []
    {
      this.cfg, this.gcDepth, this.revealed := cfg, gcDepth, revealed;
      this.dag := new MahiDag(cfg.committee, genesis);
      this.genesis := Digests(genesis);
      decisions, lastDecided, output := map[], None, [];
      emitted := Digests(genesis);
      new;
      assert this.genesis + Elems([]) == this.genesis;
    }

    method Insert(digest: Digest, block: Block) returns (inserted: bool)
      requires Valid() && Deliverable(dag.byDigest, block)
      modifies dag
      ensures Valid()
      ensures inserted <==> digest !in old(dag.byDigest)
      ensures dag.byDigest == if inserted then old(dag.byDigest)[digest := block] else old(dag.byDigest)
    {
      ghost var g := dag.byDigest;
      if digest !in dag.byDigest {
        ghost var u := g[digest := block];
        assert RoundsDescend(u) && Closed(u) && Extends(g, u);
        JustifiedGrows(cfg, g, u, decisions);
        StreamSame(g, u, genesis, decisions, Consumed());
        assert CausallyClosed(u, genesis) by {
          GenesisStays(g, genesis, digest, block);
        }
      }
      inserted := dag.Insert(digest, block);
    }

    method TallyCertificate(s: Slot, candidate: Digest, d: Digest, authors: set<Author>, stake: nat)
      returns (authors': set<Author>, stake': nat)
      requires dag.Valid() && RoundsDescend(dag.byDigest) && dag.committee == cfg.committee
      requires d in dag.byDigest && dag.byDigest[d].round == cfg.DecisionRound(s)
      requires stake == cfg.committee.Weight(authors)
      modifies dag`supportCache, dag`certificateCache
      ensures dag.Valid()
      ensures authors' == authors + (if Certificate(cfg, dag.byDigest, s, candidate, d)
                then {dag.byDigest[d].author} else {})
      ensures stake' == cfg.committee.Weight(authors')
    {
      hide MahiDag.Valid;
      authors', stake' := authors, stake;
      var certifies := dag.IsCertificate(d, candidate);
      if certifies == Some(true) {
        authors', stake' := CountAuthor(cfg.committee, authors, stake, dag.byDigest[d].author);
      }
    }

    method TallyNonVote(s: Slot, d: Digest, authors: set<Author>, stake: nat)
      returns (authors': set<Author>, stake': nat)
      requires dag.Valid() && RoundsDescend(dag.byDigest) && d in dag.byDigest
      requires dag.byDigest[d].round == cfg.VotingRound(s)
      requires stake == cfg.committee.Weight(authors)
      modifies dag`supportCache
      ensures dag.Valid()
      ensures authors' == authors + (if NonVote(cfg, dag.byDigest, s, d) then {dag.byDigest[d].author} else {})
      ensures stake' == cfg.committee.Weight(authors')
    {
      hide MahiDag.Valid;
      authors', stake' := authors, stake;
      var support := dag.FindSupport(d, cfg.Leader(s), s.round);
      if support == Some(None) {
        authors', stake' := CountAuthor(cfg.committee, authors, stake, dag.byDigest[d].author);
      }
    }

    /** Do authors of a quorum of stake certify `candidate` in the decision round? */
    method CertifiedByQuorum(s: Slot, candidate: Digest, blocks: set<Digest>) returns (b: bool)
      requires Ready() && blocks == AtRound(dag.byDigest, cfg.DecisionRound(s))
      modifies dag`supportCache, dag`certificateCache
      ensures Ready()
      ensures b <==> cfg.committee.Weight(CertifyingAuthors(cfg, dag.byDigest, s, candidate))
                     >= cfg.committee.QuorumThreshold()
    {
      hide MahiDag.Valid;
      var c := cfg.committee;
      ghost var g := dag.byDigest;
      var rest, authors, stake := blocks, {}, 0;
      ghost var done: set<Digest> := {};
      while rest != {}
        invariant dag.Valid() && done + rest == blocks
        invariant authors == CertifyingIn(cfg, g, s, candidate, done)
        invariant stake == c.Weight(authors) < c.QuorumThreshold()
        decreases rest
      {
        var d := Least(rest);
        CertifyingInStep(cfg, g, s, candidate, done, d);
        done, rest := done + {d}, rest - {d};
        authors, stake := TallyCertificate(s, candidate, d, authors, stake);
        if stake >= c.QuorumThreshold() {
          CertifyingWithin(cfg, g, s, candidate, done);
          return true;
        }
      }
      assert done == blocks;
      assert authors == CertifyingAuthors(cfg, g, s, candidate);
      return false;
    }

    /** Do authors of a quorum of stake support no block of the slot in the vote round? */
    method SkippedByQuorum(s: Slot) returns (b: bool)
      requires Ready()
      modifies dag`supportCache
      ensures Ready()
      ensures b <==> DirectSkip(cfg, dag.byDigest, s)
    {
      hide MahiDag.Valid;
      var c := cfg.committee;
      ghost var g := dag.byDigest;
      var blocks := dag.RoundDigests(cfg.VotingRound(s));
      var rest, authors, stake := blocks, {}, 0;
      ghost var done: set<Digest> := {};
      while rest != {}
        invariant dag.Valid() && done + rest == blocks
        invariant authors == NonVotingIn(cfg, g, s, done)
        invariant stake == c.Weight(authors) < c.QuorumThreshold()
        decreases rest
      {
        var d := Least(rest);
        NonVotingInStep(cfg, g, s, done, d);
        done, rest := done + {d}, rest - {d};
        authors, stake := TallyNonVote(s, d, authors, stake);
        if stake >= c.QuorumThreshold() {
          NonVotingWithin(cfg, g, s, done);
          return true;
        }
      }
      assert done == blocks;
      assert authors == NonVotingAuthors(cfg, g, s);
      return false;
    }

    /** The blocks of the slot that a quorum certifies. */
    method SupportedCandidates(s: Slot) returns (supported: set<Digest>)
      requires Ready()
      modifies dag`supportCache, dag`certificateCache
      ensures Ready() && forall l :: l in supported <==> DirectCommit(cfg, dag.byDigest, s, l)
    {
      hide MahiDag.Valid;
      ghost var g := dag.byDigest;
      var candidates := dag.SlotDigests(cfg.Leader(s), s.round);
      var blocks := dag.RoundDigests(cfg.DecisionRound(s));
      var rest := candidates;
      supported := {};
      while rest != {}
        invariant dag.Valid() && rest <= candidates
        invariant forall l :: l in supported <==> l in candidates && l !in rest && DirectCommit(cfg, g, s, l)
        decreases rest
      {
        var l := Least(rest);
        var b := CertifiedByQuorum(s, l, blocks);
        if b { supported := supported + {l}; }
        rest := rest - {l};
      }
    }

    /** Decide a slot from its own wave.  `ok` is false where the source asserts and stops. */
    method DirectDecision(s: Slot) returns (ok: bool, d: Decision)
      requires Ready()
      modifies dag`supportCache, dag`certificateCache
      ensures Ready()
      ensures !ok ==> Conflict(cfg, dag.byDigest) && exists l :: DirectCommit(cfg, dag.byDigest, s, l)
      ensures ok && d != Undecided ==> Directly(cfg, dag.byDigest, s, d)
      ensures ok && d == Undecided ==> NoDirectEvidence(cfg, dag.byDigest, s)
      ensures ok && d == Skip ==> forall l :: !DirectCommit(cfg, dag.byDigest, s, l)
      ensures ok && d.Commit? ==> forall l :: DirectCommit(cfg, dag.byDigest, s, l) ==> l == d.leader
    {
      hide MahiDag.Valid, DirectCommit, Conflict, DirectSkip;
      ghost var g := dag.byDigest;
      var supported := SupportedCandidates(s);
      if supported != {} {
        var l := Least(supported);
        var others := supported - {l};
        if others != {} {
          TwoCommitsConflict(cfg, g, s, l, Least(others));
          return false, Undecided;
        }
        assert supported == {l};
        return true, Commit(l);
      }
      var skipped := SkippedByQuorum(s);
      return true, if skipped then Skip else Undecided;
    }

    /** A leader that a quorum cannot see is skipped: authors of more than two thirds of the stake have
        a block `wave - 2` rounds after the slot from which no path leads to a block of its leader
        there, and no such block is certified by a quorum. */
    method UnseenLeaderIsSkipped(s: Slot, ghost skippers: set<Author>) returns (ok: bool, d: Decision)
      requires Ready() && cfg.committee.Weight(skippers) >= 2 * cfg.committee.Total() / 3 + 1
      requires forall a :: a in skippers ==>
                 exists v :: v in dag.byDigest && dag.byDigest[v].author == a
                             && dag.byDigest[v].round == s.round + cfg.wave - 2
                             && forall l, xs ::
                                  l in dag.byDigest && dag.byDigest[l].author == cfg.Leader(s)
                                      && dag.byDigest[l].round == s.round ==>
                                    !Path(dag.byDigest, xs, v, l)
      requires forall l :: !DirectCommit(cfg, dag.byDigest, s, l)
      modifies dag`supportCache, dag`certificateCache
      ensures Ready() && ok && d == Skip
    {
      hide MahiDag.Valid, Support, Path, Committee.Weight, NonVote;
      ghost var g := dag.byDigest;
      forall a | a in skippers ensures a in NonVotingAuthors(cfg, g, s) {
        var v :| v in g && g[v].author == a && g[v].round == s.round + cfg.wave - 2
                 && forall l, xs :: l in g && g[l].author == cfg.Leader(s) && g[l].round == s.round ==>
                     !Path(g, xs, v, l);
        NonVoteMeans(cfg, g, s, v);
      }
      WeightMonotone(cfg.committee, skippers, NonVotingAuthors(cfg, g, s));
      ok, d := DirectDecision(s);
    }

    /** Is this decision-round block in the anchor's history, and does it certify `candidate`? */
    method CheckAnchored(s: Slot, anchor: Digest, candidate: Digest, c: Digest) returns (r: Option<bool>)
      requires Ready() && anchor in dag.byDigest && candidate in dag.byDigest
      requires c in dag.byDigest && dag.byDigest[c].round == cfg.DecisionRound(s)
      modifies dag`supportCache, dag`certificateCache, dag`linkCache
      ensures dag.Valid()
      ensures r == Some(AnchoredCertificate(cfg, dag.byDigest, s, anchor, candidate, c))
    {
      hide MahiDag.Valid;
      LinkedComplete(dag.byDigest, anchor, c);
      CertifiesComplete(cfg.committee, dag.byDigest, c, candidate);
      r := dag.IsLinked(anchor, c);
      if r == Some(true) {
        r := dag.IsCertificate(c, candidate);
      }
    }

    /** Scan the decision round for a certificate of `candidate` in the anchor's history. */
    method AnchoredCandidate(s: Slot, anchor: Digest, candidate: Digest, blocks: set<Digest>)
      returns (certified: bool, incomplete: bool)
      requires Ready() && anchor in dag.byDigest && Candidate(cfg, dag.byDigest, s, candidate)
      requires blocks == AtRound(dag.byDigest, cfg.DecisionRound(s))
      modifies dag`supportCache, dag`certificateCache, dag`linkCache
      ensures dag.Valid() && !incomplete
      ensures certified <==> AnchorCommits(cfg, dag.byDigest, s, anchor, candidate)
    {
      hide MahiDag.Valid;
      ghost var g := dag.byDigest;
      certified, incomplete := false, false;
      var rest := blocks;
      while rest != {}
        invariant dag.Valid() && rest <= blocks && !incomplete
        invariant forall c :: c in blocks && c !in rest ==> !AnchoredCertificate(cfg, g, s, anchor, candidate, c)
        decreases rest
      {
        var c := Least(rest);
        rest := rest - {c};
        var r := CheckAnchored(s, anchor, candidate, c);
        if r == Some(true) {
          assert AnchoredCertificate(cfg, g, s, anchor, candidate, c);
          return true, incomplete;
        } else if r == None {
          incomplete := true;
        }
      }
      NothingAnchored(cfg, g, s, anchor, candidate);
    }

    /** Decide a slot from the history of a later committed leader. */
    method DecideFromAnchor(s: Slot, anchor: Digest) returns (ok: bool, d: Decision)
      requires Ready() && anchor in dag.byDigest
      modifies dag`supportCache, dag`certificateCache, dag`linkCache
      ensures dag.Valid()
      ensures !ok ==> Conflict(cfg, dag.byDigest)
      ensures ok ==> ByAnchor(cfg, dag.byDigest, s, anchor, d)
      ensures ok && d.Commit? ==> forall l :: AnchorCommits(cfg, dag.byDigest, s, anchor, l) ==> l == d.leader
    {
      hide MahiDag.Valid;
      ghost var g := dag.byDigest;
      var candidates := dag.SlotDigests(cfg.Leader(s), s.round);
      var blocks := dag.RoundDigests(cfg.DecisionRound(s));
      var certified: set<Digest> := {};
      var incomplete := false;
      var rest := candidates;
      while rest != {}
        invariant dag.Valid() && rest <= candidates && !incomplete
        invariant forall l :: l in certified <==> l in candidates && l !in rest && AnchorCommits(cfg, g, s, anchor, l)
        decreases rest
      {
        var l := Least(rest);
        var b, missing := AnchoredCandidate(s, anchor, l, blocks);
        incomplete := incomplete || missing;
        if b { certified := certified + {l}; }
        rest := rest - {l};
      }
      assert forall l :: l in certified <==> AnchorCommits(cfg, g, s, anchor, l);
      if certified != {} {
        var l := Least(certified);
        var others := certified - {l};
        if others != {} {
          AnchorConflict(cfg, g, s, anchor, l, Least(others));
          return false, Undecided;
        }
        assert certified == {l};
        return true, Commit(l);
      }
      return true, if incomplete then Undecided else Skip;
    }

    /** Look for the first later slot above the decision round that is not skipped.
        `later` holds the records of slots `first`, `first + 1`, ... in order. */
    method IndirectDecision(s: Slot, later: seq<Decision>, first: nat) returns (ok: bool, d: Decision)
      requires Ready() && Justified(cfg, dag.byDigest, decisions)
      requires first > 0 && s == SlotAt(first - 1)
      requires forall j :: 0 <= j < |later| ==> later[j] == Lookup(decisions, SlotAt(first + j))
      modifies dag`supportCache, dag`certificateCache, dag`linkCache
      ensures dag.Valid()
      ensures !ok ==> Conflict(cfg, dag.byDigest)
      ensures ok && d != Undecided ==> Indirectly(cfg, dag.byDigest, decisions, s, d)
      ensures ok && d == Undecided ==> NoAnchorBelow(cfg, dag.byDigest, decisions, s, first + |later|)
    {
      hide MahiDag.Valid;
      CommitsAreCandidates(cfg, dag.byDigest, decisions);
      var anchor := FirstAnchor(cfg, dag.byDigest, decisions, s, later, first);
      if anchor == None {
        return true, Undecided;
      }
      ok, d := DecideFromAnchor(s, anchor.value);
    }

    /** The unconsumed slots, in order, up to the first that is not pending. */
    method PendingSlots() returns (slots: seq<Slot>)
      requires dag.Valid() && (lastDecided.Some? ==> ProperSlot(lastDecided.value))
      ensures PendingRun(cfg, revealed, dag.byDigest, Consumed(), slots)
      ensures !Pending(cfg, revealed, dag.byDigest, SlotAt(Consumed() + |slots|))
    {
      hide MahiDag.Valid;
      var highest := dag.HighestRound();
      HighestReached(dag.byDigest, highest);
      FirstUnconsumed(lastDecided);
      slots := ScanPending(cfg, revealed, dag.byDigest, highest, NextSlot(lastDecided), Consumed());
    }

    /** Emit what is new in the leader's history, sorted.  The stack walk and the sort are the
        source's; the result is the batch of `MahiOrder`. */
    method Linearize(leader: Digest) returns (batch: seq<Digest>)
      requires RoundsDescend(dag.byDigest) && Closed(dag.byDigest) && leader in dag.byDigest
      requires CausallyClosed(dag.byDigest, emitted)
      modifies this`emitted
      ensures batch == Batch(dag.byDigest, leader, old(emitted))
      ensures emitted == old(emitted) + Elems(batch)
      ensures forall d :: d in batch <==>
                d in dag.byDigest && d !in old(emitted) && exists xs :: Path(dag.byDigest, xs, leader, d)
      ensures ByRoundAuthorDigest(dag.byDigest, batch)
    {
      hide Path;
      var g := dag.byDigest;
      var reachable := Unemitted(g, leader, emitted);
      batch := Sorted(OrderOf(g), reachable);
      SortedElems(OrderOf(g), reachable);
      BatchMeans(g, leader, emitted);
      emitted := emitted + reachable;
    }

    /** Decide one slot: keep a recorded decision, else try directly, else through an anchor. */
    method DecideSlot(s: Slot, later: seq<Decision>, first: nat) returns (ok: bool, d: Decision)
      requires Ready() && Justified(cfg, dag.byDigest, decisions)
      requires first > 0 && s == SlotAt(first - 1)
      requires forall j :: 0 <= j < |later| ==> later[j] == Lookup(decisions, SlotAt(first + j))
      modifies this`decisions, dag`supportCache, dag`certificateCache, dag`linkCache
      ensures dag.Valid() && Justified(cfg, dag.byDigest, decisions)
      ensures !ok ==> Conflict(cfg, dag.byDigest) && decisions == old(decisions)
      ensures ok ==> d == Lookup(decisions, s)
      ensures ok ==> decisions == if d == Undecided then old(decisions) else old(decisions)[s := d]
      ensures s in old(decisions) ==> decisions == old(decisions)
      ensures ok ==> Resolved(cfg, dag.byDigest, decisions, s, first + |later|)
    {
      hide MahiDag.Valid;
      if s in decisions {
        return true, decisions[s];
      }
      SlotOrder(s, first - 1);
      ok, d := DirectDecision(s);
      if !ok {
        return;
      }
      if d == Undecided {
        ok, d := IndirectDecision(s, later, first);
        if !ok {
          return;
        }
      }
      if d != Undecided {
        JustifiedRecord(cfg, dag.byDigest, decisions, s, d);
        decisions := decisions[s := d];
      }
    }

    /** Decide the `k`-th slot and put its record in front of the later ones. */
    method DecideAt(k: nat, records: seq<Decision>) returns (ok: bool, records': seq<Decision>)
      requires Ready() && Justified(cfg, dag.byDigest, decisions)
      requires MatchTable(records, decisions, k + 1)
      requires AllResolved(cfg, dag.byDigest, decisions, k + 1, k + 1 + |records|)
      modifies this`decisions, dag`supportCache, dag`certificateCache, dag`linkCache
      ensures dag.Valid() && Justified(cfg, dag.byDigest, decisions)
      ensures Recorded(old(decisions), decisions)
      ensures !ok ==> Conflict(cfg, dag.byDigest)
      ensures ok ==> |records'| == |records| + 1 && MatchTable(records', decisions, k)
      ensures ok ==> AllResolved(cfg, dag.byDigest, decisions, k, k + |records'|)
    {
      hide MahiDag.Valid, Justified, Resolved;
      var d;
      ok, d := DecideSlot(SlotAt(k), records, k + 1);
      records' := [d] + records;
      if ok {
        MatchTableStep(records, old(decisions), k, d);
        if d != Undecided {
          AllResolvedStep(cfg, dag.byDigest, old(decisions), k, d, k + |records'|);
        }
      }
    }

    /** One pass over the pending slots, last to first. */
    method DecideSlots(n: nat, count: nat) returns (ok: bool)
      requires Ready() && Justified(cfg, dag.byDigest, decisions)
      modifies this`decisions, dag`supportCache, dag`certificateCache, dag`linkCache
      ensures dag.Valid() && Justified(cfg, dag.byDigest, decisions)
      ensures Recorded(old(decisions), decisions)
      ensures !ok ==> Conflict(cfg, dag.byDigest)
      ensures ok ==> AllResolved(cfg, dag.byDigest, decisions, n, n + count)
    {
      hide MahiDag.Valid, Justified, Resolved;
      var records: seq<Decision> := [];
      var i := count;
      while i > 0
        invariant 0 <= i <= count && |records| == count - i
        invariant dag.Valid() && Justified(cfg, dag.byDigest, decisions)
        invariant Recorded(old(decisions), decisions)
        invariant MatchTable(records, decisions, n + i)
        invariant AllResolved(cfg, dag.byDigest, decisions, n + i, n + count)
      {
        i := i - 1;
        ok, records := DecideAt(n + i, records);
        if !ok {
          return;
        }
      }
      return true;
    }

    /** Consume one decided slot, emitting its batch if it is committed. */
    method ConsumeSlot(s: Slot) returns (batch: seq<Digest>)
      requires Ready() && genesis <= dag.byDigest.Keys && CausallyClosed(dag.byDigest, genesis)
      requires Emitting() && s == SlotAt(Consumed()) && s in decisions && decisions[s] != Undecided
      requires decisions[s].Commit? ==> decisions[s].leader in dag.byDigest
      modifies this`lastDecided, this`emitted, this`output
      ensures Emitting() && Consumed() == old(Consumed()) + 1
      ensures output == old(output) + batch
    {
      hide MahiDag.Valid, Closed, RoundsDescend, CausallyClosed, Batch, Elems, SlotAt, SoundStream, Stream;
      hide DecidedPrefix;
      ghost var n := Consumed();
      SlotOrder(s, n);
      StreamClosed(dag.byDigest, genesis, decisions, n);
      batch := [];
      lastDecided := Some(s);
      if decisions[s].Commit? {
        batch := Linearize(decisions[s].leader);
      }
      StreamNext(dag.byDigest, genesis, decisions, n, batch);
      output := output + batch;
    }

    /** Consume the decided prefix of the pending slots and stop at the first undecided one. */
    method ConsumeSlots(count: nat) returns (sequence: seq<Digest>)
      requires Ready() && genesis <= dag.byDigest.Keys && CausallyClosed(dag.byDigest, genesis)
      requires Justified(cfg, dag.byDigest, decisions) && Emitting()
      modifies this`lastDecided, this`emitted, this`output
      ensures Emitting() && output == old(output) + sequence
      ensures old(Consumed()) <= Consumed() <= old(Consumed()) + count
      ensures Consumed() == old(Consumed()) + count || SlotAt(Consumed()) !in decisions
    {
      hide MahiDag.Valid, Closed, RoundsDescend, CausallyClosed, SlotAt, Justified, Stream, DecidedPrefix, Elems;
      DecidedEntries(cfg, dag.byDigest, decisions);
      sequence := [];
      ghost var n := Consumed();
      var i := 0;
      while i < count
        invariant 0 <= i <= count && Emitting() && Consumed() == n + i
        invariant output == old(output) + sequence
      {
        var s := SlotAt(Consumed());
        if s !in decisions {
          return;
        }
        var batch := ConsumeSlot(s);
        sequence := sequence + batch;
        i := i + 1;
      }
    }

    /** One decision pass.  `ok` is false exactly when a safety assertion of the source fails;
        the process stops there. */
    method TryDecide() returns (ok: bool, sequence: seq<Digest>)
      requires Valid()
      modifies this`decisions, this`lastDecided, this`emitted, this`output
      modifies dag`supportCache, dag`certificateCache, dag`linkCache
      ensures Valid()
      ensures Recorded(old(decisions), decisions)
      ensures output == old(output) + sequence
      ensures !ok ==> Conflict(cfg, dag.byDigest)
      ensures ok ==> PassComplete(cfg, revealed, dag.byDigest, decisions, old(Consumed()), Consumed())
    {
      hide MahiDag.Valid, Closed, RoundsDescend, CausallyClosed, SlotAt, Justified;
      hide Stream, DecidedPrefix, Elems, PendingRun, Pending, AllResolved, PassComplete, Conflict, Recorded;
      var slots := PendingSlots();
      var n := Consumed();
      ok := DecideSlots(n, |slots|);
      StreamKept(dag.byDigest, genesis, old(decisions), decisions, n);
      if !ok {
        return false, [];
      }
      sequence := ConsumeSlots(|slots|);
      PassDone(cfg, revealed, dag.byDigest, decisions, n, Consumed(), slots);
      match lastDecided
      case None =>
      case Some(last) =>
        dag.PruneCaches(if last.round < gcDepth then 0 else last.round - gcDepth);
    }

    /** The last pass saw every pending slot and consumed exactly the decided prefix. */
    ghost predicate Settled()
      requires RoundsDescend(dag.byDigest) && (lastDecided.Some? ==> ProperSlot(lastDecided.value))
      reads this, dag
    {
      exists n: nat :: PassComplete(cfg, revealed, dag.byDigest, decisions, n, Consumed())
    }

    /** The main loop: insert each delivered block and, if it is new, run a decision pass.  As long
        as all deliveries lie in a universe within the fault bound, no assertion ever fails. */
    method Run(deliveries: seq<(Digest, Block)>) returns (ok: bool, sent: seq<Digest>)
      requires Valid() && HistoryFirst(dag.byDigest, deliveries)
      modifies this`decisions, this`lastDecided, this`emitted, this`output, dag
      ensures Valid()
      ensures output == old(output) + sent && Recorded(old(decisions), decisions)
      ensures ok ==> dag.byDigest == DeliverAll(old(dag.byDigest), deliveries)
      ensures Extends(dag.byDigest, DeliverAll(old(dag.byDigest), deliveries))
      ensures !ok ==> Conflict(cfg, dag.byDigest)
      ensures WithinFaultBound(cfg.committee, DeliverAll(old(dag.byDigest), deliveries)) ==> ok
      ensures ok && dag.byDigest != old(dag.byDigest) ==> Settled()
    {
      hide RoundsDescend, Closed, CausallyClosed, Justified, Deliverable, Extends;
      hide DecidedPrefix, Stream, Elems, MahiDag.Valid, PassComplete, Conflict, WithinFaultBound;
      ok, sent := true, [];
      var i := 0;
      assert deliveries[0..] == deliveries;
      while i < |deliveries|
        invariant 0 <= i <= |deliveries| && Valid()
        invariant HistoryFirst(dag.byDigest, deliveries[i..])
        invariant DeliverAll(dag.byDigest, deliveries[i..]) == DeliverAll(old(dag.byDigest), deliveries)
        invariant output == old(output) + sent && Recorded(old(decisions), decisions)
        invariant dag.byDigest != old(dag.byDigest) ==> Settled()
      {
        var (digest, block) := deliveries[i];
        assert deliveries[i..][1..] == deliveries[i + 1..];
        var inserted := Insert(digest, block);
        i := i + 1;
        if inserted {
          var batch;
          ok, batch := TryDecide();
          sent := sent + batch;
          if !ok {
            DeliverAllExtends(dag.byDigest, deliveries[i..]);
            NoConflictWithin(cfg, dag.byDigest, DeliverAll(dag.byDigest, deliveries[i..]));
            return;
          }
        }
      }
      DeliverAllExtends(dag.byDigest, deliveries[i..]);
      return true, sent;
    }
  }

  /** Any two committers, at any two moments of their runs, have prefix-comparable output and
      agree on every slot both have decided, as long as all blocks they hold come from one
      universe within the fault bound. */
  lemma CommittersAgree(a: MahiCommitter, b: MahiCommitter, u: Graph, byz: set<Author>)
    requires a.Valid() && b.Valid() && a.cfg == b.cfg && a.genesis == b.genesis
    requires Universe(a.cfg.committee, u, byz)
    requires Extends(a.dag.byDigest, u) && Extends(b.dag.byDigest, u)
    ensures a.output <= b.output || b.output <= a.output
    ensures forall s :: s in a.decisions && s in b.decisions ==> a.decisions[s] == b.decisions[s]
    ensures SoundStream(a.dag.byDigest, a.genesis, a.output)
  {
    hide Universe, Justified, DecidedPrefix, CausallyClosed, SoundStream;
    MahiTotalOrder(a.cfg, u, byz, a.genesis, a.dag.byDigest, a.decisions, a.Consumed(),
                   b.dag.byDigest, b.decisions, b.Consumed());
    forall s | s in a.decisions && s in b.decisions ensures a.decisions[s] == b.decisions[s] {
      MahiAgreement(a.cfg, u, byz, a.dag.byDigest, a.decisions, b.dag.byDigest, b.decisions, s);
    }
    StreamSound(a.dag.byDigest, a.genesis, a.decisions, a.Consumed());
  }

  /** Once a pass is over, the first slot not consumed is not pending, or it is undecided and has no
      direct evidence. */
  lemma FirstUnconsumedOpen(a: MahiCommitter)
    requires a.Valid() && a.Settled()
    ensures var s, g := SlotAt(a.Consumed()), a.dag.byDigest;
            !Pending(a.cfg, a.revealed, g, s) || (s !in a.decisions && NoDirectEvidence(a.cfg, g, s))
  {
    hide Pending, NoDirectEvidence, SlotAt, NoAnchorBelow, Justified, Stream, DecidedPrefix, MahiDag.Valid;
    var n: nat :| PassComplete(a.cfg, a.revealed, a.dag.byDigest, a.decisions, n, a.Consumed());
    PassEnd(a.cfg, a.revealed, a.dag.byDigest, a.decisions, n, a.Consumed());
  }

  lemma PassEnd(cfg: Setup, revealed: Reveal, g: Graph, ds: Decisions, n: nat, m: nat)
    requires RoundsDescend(g) && PassComplete(cfg, revealed, g, ds, n, m)
    ensures !Pending(cfg, revealed, g, SlotAt(m)) || (SlotAt(m) !in ds && NoDirectEvidence(cfg, g, SlotAt(m)))
  {
    hide Pending, NoDirectEvidence, SlotAt, NoAnchorBelow, RoundsDescend;
    var hi: nat :| PassUpTo(cfg, revealed, g, ds, n, m, hi);
    if m < hi { assert Resolved(cfg, g, ds, SlotAt(m), hi); }
  }

  lemma GenesisStays(g: Graph, genesis: set<Digest>, digest: Digest, block: Block)
    requires CausallyClosed(g, genesis) && digest !in g && digest !in genesis
    ensures CausallyClosed(g[digest := block], genesis)
  {
  }
}
