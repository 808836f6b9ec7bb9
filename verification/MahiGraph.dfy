/** The Mahi-Mahi block graph and the three queries on it, without memoisation.
    A graph maps digests to blocks; it may hold several blocks of one author in one round,
    and it may reference blocks that have not arrived.  A query answers `None` when
    referenced history is missing. */
module MahiGraph {
  import opened Quorums

  /** `parents` lists the referenced digests in the iteration order of the ordered set. */
  datatype Block = Block(author: Author, round: Round, parents: seq<Digest>)

  type Graph = map<Digest, Block>

  ghost predicate RoundsDescend(g: Graph) {
    forall d, p :: d in g && p in g[d].parents && p in g ==> g[p].round < g[d].round
  }

  /** Every referenced block has arrived. */
  ghost predicate Closed(g: Graph) {
    forall d, p :: d in g && p in g[d].parents ==> p in g
  }

  ghost predicate Extends(g: Graph, g': Graph) {
    forall d :: d in g ==> d in g' && g'[d] == g[d]
  }

  ghost function RoundOf(g: Graph, d: Digest): Round {
    if d in g then g[d].round else 0
  }

  // ---------------------------------------------------------------- support

  /** The first block at (author, round) met by a depth-first walk from `from`. */
  ghost function Support(g: Graph, from: Digest, author: Author, round: Round): Option<Option<Digest>>
    requires RoundsDescend(g)
    decreases RoundOf(g, from), 1, 0
  {
    if from !in g then None
    else if g[from].round <= round then Some(None)
    else SupportScan(g, from, author, round, 0)
  }

  /** The walk over the parents of `from`, starting at position `i`. */
  ghost function SupportScan(g: Graph, from: Digest, author: Author, round: Round, i: nat): Option<Option<Digest>>
    requires RoundsDescend(g) && from in g && i <= |g[from].parents|
    decreases RoundOf(g, from), 0, |g[from].parents| - i
  {
    if i == |g[from].parents| then Some(None)
    else
      var p := g[from].parents[i];
      if p !in g then None
      else if g[p].round == round && g[p].author == author then Some(Some(p))
      else if g[p].round > round then
        var s := Support(g, p, author, round);
        if s == Some(None) then SupportScan(g, from, author, round, i + 1) else s
      else SupportScan(g, from, author, round, i + 1)
  }

  // ---------------------------------------------------------------- votes and certificates

  ghost function IsVote(g: Graph, vote: Digest, leader: Digest): Option<bool>
    requires RoundsDescend(g)
  {
    if leader !in g then None
    else
      match Support(g, vote, g[leader].author, g[leader].round)
      case None => None
      case Some(s) => Some(s == Some(leader))
  }

  /** The round just below a certificate; round 0 has no round below it. */
  function VoteRound(round: Round): Round { if round == 0 then 0 else round - 1 }

  /** Position `i` of the parent list holds a vote-round block that supports `leader`. */
  ghost predicate VotesAt(g: Graph, cert: Digest, leader: Digest, i: nat)
    requires RoundsDescend(g) && cert in g && i < |g[cert].parents|
  {
    var p := g[cert].parents[i];
    p in g && g[p].round == VoteRound(g[cert].round) && IsVote(g, p, leader) == Some(true)
  }

  /** Distinct authors of supporting parents among the first `n`. */
  ghost function Voters(g: Graph, cert: Digest, leader: Digest, n: nat): set<Author>
    requires RoundsDescend(g) && cert in g && n <= |g[cert].parents|
  {
    set i | 0 <= i < n && VotesAt(g, cert, leader, i) :: g[g[cert].parents[i]].author
  }

  /** Position `i` leaves the question open: the parent is missing, or it is a vote-round
      block with incomplete history whose author has not voted at an earlier position. */
  ghost predicate OpenAt(g: Graph, cert: Digest, leader: Digest, i: nat)
    requires RoundsDescend(g) && cert in g && i < |g[cert].parents|
  {
    var p := g[cert].parents[i];
    p !in g ||
    (g[p].round == VoteRound(g[cert].round)
     && g[p].author !in Voters(g, cert, leader, i)
     && IsVote(g, p, leader) == None)
  }

  ghost predicate OpenBefore(g: Graph, cert: Digest, leader: Digest, n: nat)
    requires RoundsDescend(g) && cert in g && n <= |g[cert].parents|
  {
    exists i :: 0 <= i < n && OpenAt(g, cert, leader, i)
  }

  /** Does `cert` carry, among its parents, a quorum of distinct authors voting for `leader`? */
  ghost function Certifies(c: Committee, g: Graph, cert: Digest, leader: Digest): Option<bool>
    requires RoundsDescend(g)
  {
    if cert !in g then None
    else
      var n := |g[cert].parents|;
      if c.Weight(Voters(g, cert, leader, n)) >= c.QuorumThreshold() then Some(true)
      else if OpenBefore(g, cert, leader, n) then None
      else Some(false)
  }

  // ---------------------------------------------------------------- links

  /** Reachability over parent links. */
  ghost function Linked(g: Graph, from: Digest, to: Digest): Option<bool>
    requires RoundsDescend(g)
    decreases RoundOf(g, from)
  {
    if from == to then Some(true)
    else if to !in g || from !in g then None
    else if g[from].round <= g[to].round then Some(false)
    else if exists p :: p in g[from].parents && p in g && g[p].round >= g[to].round && Linked(g, p, to) == Some(true)
    then Some(true)
    else if exists p :: p in g[from].parents && (p in g ==> g[p].round >= g[to].round && Linked(g, p, to) == None)
    then None
    else Some(false)
  }

  // ---------------------------------------------------------------- answers never change

  lemma {:induction false} SupportStable(g: Graph, g': Graph, from: Digest, author: Author, round: Round)
    requires RoundsDescend(g) && RoundsDescend(g') && Extends(g, g')
    requires Support(g, from, author, round) != None
    ensures Support(g', from, author, round) == Support(g, from, author, round)
    decreases RoundOf(g, from), 1, 0
  {
    if g[from].round > round { SupportScanStable(g, g', from, author, round, 0); }
  }

  lemma {:induction false} SupportScanStable(g: Graph, g': Graph, from: Digest, author: Author, round: Round, i: nat)
    requires RoundsDescend(g) && RoundsDescend(g') && Extends(g, g')
    requires from in g && i <= |g[from].parents|
    requires SupportScan(g, from, author, round, i) != None
    ensures SupportScan(g', from, author, round, i) == SupportScan(g, from, author, round, i)
    decreases RoundOf(g, from), 0, |g[from].parents| - i
  {
    if i < |g[from].parents| {
      var p := g[from].parents[i];
      if g[p].round == round && g[p].author == author {
      } else if g[p].round > round {
        SupportStable(g, g', p, author, round);
        if Support(g, p, author, round) == Some(None) { SupportScanStable(g, g', from, author, round, i + 1); }
      } else {
        SupportScanStable(g, g', from, author, round, i + 1);
      }
    }
  }

  lemma IsVoteStable(g: Graph, g': Graph, vote: Digest, leader: Digest)
    requires RoundsDescend(g) && RoundsDescend(g') && Extends(g, g')
    requires IsVote(g, vote, leader) != None
    ensures IsVote(g', vote, leader) == IsVote(g, vote, leader)
  {
    SupportStable(g, g', vote, g[leader].author, g[leader].round);
  }

  lemma VotersGrow(g: Graph, g': Graph, cert: Digest, leader: Digest, n: nat)
    requires RoundsDescend(g) && RoundsDescend(g') && Extends(g, g')
    requires cert in g && n <= |g[cert].parents|
    ensures Voters(g, cert, leader, n) <= Voters(g', cert, leader, n)
  {
    forall a | a in Voters(g, cert, leader, n) ensures a in Voters(g', cert, leader, n) {
      var i :| 0 <= i < n && VotesAt(g, cert, leader, i) && g[g[cert].parents[i]].author == a;
      IsVoteStable(g, g', g[cert].parents[i], leader);
      assert VotesAt(g', cert, leader, i);
    }
  }

  /** If nothing is open among the first `n` parents, the voters there are final. */
  lemma {:induction false} VotersFinal(g: Graph, g': Graph, cert: Digest, leader: Digest, n: nat)
    requires RoundsDescend(g) && RoundsDescend(g') && Extends(g, g')
    requires cert in g && n <= |g[cert].parents|
    requires !OpenBefore(g, cert, leader, n)
    ensures Voters(g', cert, leader, n) == Voters(g, cert, leader, n)
    ensures !OpenBefore(g', cert, leader, n)
  {
    if n > 0 {
      assert !OpenBefore(g, cert, leader, n - 1);
      VotersFinal(g, g', cert, leader, n - 1);
      VotersGrow(g, g', cert, leader, n);
      assert !OpenAt(g, cert, leader, n - 1);
      var p := g[cert].parents[n - 1];
      VotersStep(g, cert, leader, n - 1);
      VotersStep(g', cert, leader, n - 1);
      if IsVote(g, p, leader) != None { IsVoteStable(g, g', p, leader); }
      assert !OpenAt(g', cert, leader, n - 1);
    }
  }

  lemma VotersStep(g: Graph, cert: Digest, leader: Digest, n: nat)
    requires RoundsDescend(g) && cert in g && n < |g[cert].parents|
    ensures Voters(g, cert, leader, n + 1) ==
            Voters(g, cert, leader, n)
            + (if VotesAt(g, cert, leader, n) then {g[g[cert].parents[n]].author} else {})
  {
    var l, r := Voters(g, cert, leader, n + 1), Voters(g, cert, leader, n);
    forall a | a in l ensures a in r || (VotesAt(g, cert, leader, n) && a == g[g[cert].parents[n]].author) {
      var i :| 0 <= i < n + 1 && VotesAt(g, cert, leader, i) && g[g[cert].parents[i]].author == a;
      assert i < n ==> a in r;
    }
  }

  lemma CertifiesStable(c: Committee, g: Graph, g': Graph, cert: Digest, leader: Digest)
    requires RoundsDescend(g) && RoundsDescend(g') && Extends(g, g')
    requires Certifies(c, g, cert, leader) != None
    ensures Certifies(c, g', cert, leader) == Certifies(c, g, cert, leader)
  {
    var n := |g[cert].parents|;
    if Certifies(c, g, cert, leader) == Some(true) {
      VotersGrow(g, g', cert, leader, n);
      WeightMonotone(c, Voters(g, cert, leader, n), Voters(g', cert, leader, n));
    } else {
      VotersFinal(g, g', cert, leader, n);
    }
  }

  lemma {:induction false} LinkedStable(g: Graph, g': Graph, from: Digest, to: Digest)
    requires RoundsDescend(g) && RoundsDescend(g') && Extends(g, g')
    requires Linked(g, from, to) != None
    ensures Linked(g', from, to) == Linked(g, from, to)
    decreases RoundOf(g, from)
  {
    if from != to && g[from].round > g[to].round {
      forall p | p in g[from].parents && p in g && g[p].round >= g[to].round && Linked(g, p, to) != None
        ensures Linked(g', p, to) == Linked(g, p, to)
      {
        LinkedStable(g, g', p, to);
      }
    }
  }

  // ---------------------------------------------------------------- closed graphs answer every question

  lemma {:induction false} SupportComplete(g: Graph, from: Digest, author: Author, round: Round)
    requires RoundsDescend(g) && Closed(g) && from in g
    ensures Support(g, from, author, round) != None
    decreases RoundOf(g, from), 1, 0
  {
    if g[from].round > round { SupportScanComplete(g, from, author, round, 0); }
  }

  lemma {:induction false} SupportScanComplete(g: Graph, from: Digest, author: Author, round: Round, i: nat)
    requires RoundsDescend(g) && Closed(g) && from in g && i <= |g[from].parents|
    ensures SupportScan(g, from, author, round, i) != None
    decreases RoundOf(g, from), 0, |g[from].parents| - i
  {
    if i < |g[from].parents| {
      SupportComplete(g, g[from].parents[i], author, round);
      SupportScanComplete(g, from, author, round, i + 1);
    }
  }

  lemma CertifiesComplete(c: Committee, g: Graph, cert: Digest, leader: Digest)
    requires RoundsDescend(g) && Closed(g) && cert in g && leader in g
    ensures Certifies(c, g, cert, leader) != None
  {
    forall i | 0 <= i < |g[cert].parents| ensures !OpenAt(g, cert, leader, i) {
      SupportComplete(g, g[cert].parents[i], g[leader].author, g[leader].round);
    }
  }

  lemma {:induction false} LinkedComplete(g: Graph, from: Digest, to: Digest)
    requires RoundsDescend(g) && Closed(g) && from in g && to in g
    ensures Linked(g, from, to) != None
    decreases RoundOf(g, from)
  {
    forall p | p in g[from].parents ensures Linked(g, p, to) != None {
      LinkedComplete(g, p, to);
    }
  }

  // ---------------------------------------------------------------- what the answers mean

  /** A support is a block of the asked author and round, reachable from the voter. */
  lemma {:induction false} SupportSound(g: Graph, from: Digest, author: Author, round: Round)
    requires RoundsDescend(g)
    requires Support(g, from, author, round).Some? && Support(g, from, author, round).value.Some?
    ensures var s := Support(g, from, author, round).value.value;
            s in g && g[s].author == author && g[s].round == round && Linked(g, from, s) == Some(true)
    decreases RoundOf(g, from), 1, 0
  {
    SupportScanSound(g, from, author, round, 0);
  }

  lemma {:induction false} SupportScanSound(g: Graph, from: Digest, author: Author, round: Round, i: nat)
    requires RoundsDescend(g) && from in g && i <= |g[from].parents| && g[from].round > round
    requires SupportScan(g, from, author, round, i).Some? && SupportScan(g, from, author, round, i).value.Some?
    ensures var s := SupportScan(g, from, author, round, i).value.value;
            s in g && g[s].author == author && g[s].round == round && Linked(g, from, s) == Some(true)
    decreases RoundOf(g, from), 0, |g[from].parents| - i
  {
    var p := g[from].parents[i];
    assert p in g[from].parents;
    if g[p].round == round && g[p].author == author {
      assert Linked(g, p, p) == Some(true);
    } else if g[p].round > round && Support(g, p, author, round) != Some(None) {
      SupportSound(g, p, author, round);
    } else {
      SupportScanSound(g, from, author, round, i + 1);
    }
  }

  lemma {:induction false} LinkedRounds(g: Graph, from: Digest, to: Digest)
    requires RoundsDescend(g) && from in g && Linked(g, from, to) == Some(true)
    ensures to in g && (from == to || g[to].round < g[from].round)
  {
  }

  lemma {:induction false} LinkedTransitive(g: Graph, a: Digest, b: Digest, c: Digest)
    requires RoundsDescend(g) && Closed(g) && a in g
    requires Linked(g, a, b) == Some(true) && Linked(g, b, c) == Some(true)
    ensures Linked(g, a, c) == Some(true)
    decreases RoundOf(g, a)
  {
    LinkedRounds(g, a, b);
    LinkedRounds(g, b, c);
    if a != b && b != c {
      var p :| p in g[a].parents && p in g && g[p].round >= g[b].round && Linked(g, p, b) == Some(true);
      LinkedTransitive(g, p, b, c);
      LinkedRounds(g, p, c);
    }
  }

  lemma ParentLinked(g: Graph, d: Digest, p: Digest)
    requires RoundsDescend(g) && d in g && p in g[d].parents && p in g
    ensures Linked(g, d, p) == Some(true)
  {
    assert Linked(g, p, p) == Some(true);
  }

  /** A walk along parent links through stored blocks. */
  ghost predicate Path(g: Graph, xs: seq<Digest>, from: Digest, to: Digest) {
    && xs != [] && xs[0] == from && xs[|xs| - 1] == to
    && (forall i :: 0 <= i < |xs| - 1 ==> ParentStep(g, xs[i], xs[i + 1]))
  }

  ghost predicate ParentStep(g: Graph, d: Digest, p: Digest) { d in g && p in g && p in g[d].parents }

  lemma {:induction false} LinkedPath(g: Graph, from: Digest, to: Digest) returns (xs: seq<Digest>)
    requires RoundsDescend(g) && Linked(g, from, to) == Some(true)
    ensures Path(g, xs, from, to)
    decreases RoundOf(g, from)
  {
    xs := [from];
    if from != to {
      var p :| p in g[from].parents && p in g && g[p].round >= g[to].round && Linked(g, p, to) == Some(true);
      var ys := LinkedPath(g, p, to);
      xs := [from] + ys;
      assert ParentStep(g, from, p);
    }
  }

  lemma {:induction false} PathLinked(g: Graph, xs: seq<Digest>, from: Digest, to: Digest)
    requires RoundsDescend(g) && Path(g, xs, from, to)
    ensures Linked(g, from, to) == Some(true)
    decreases |xs|
  {
    if |xs| > 1 {
      assert ParentStep(g, xs[0], xs[1]);
      var ys := xs[1..];
      forall i | 0 <= i < |ys| - 1 ensures ParentStep(g, ys[i], ys[i + 1]) {
        assert ys[i] == xs[i + 1] && ys[i + 1] == xs[i + 1 + 1];
      }
      PathLinked(g, ys, xs[1], to);
      LinkedRounds(g, xs[1], to);
      ParentLinked(g, from, xs[1]);
    }
  }

  /** The pruned search finds a link exactly when there is a path. */
  lemma LinkedIffPath(g: Graph, from: Digest, to: Digest)
    requires RoundsDescend(g)
    ensures Linked(g, from, to) == Some(true) <==> exists xs :: Path(g, xs, from, to)
  {
    if Linked(g, from, to) == Some(true) {
      var xs := LinkedPath(g, from, to);
    }
    if xs :| Path(g, xs, from, to) {
      PathLinked(g, xs, from, to);
    }
  }

  /** A block that supports nothing in the slot has no block of the slot in its history. */
  lemma {:induction false} SupportNone(g: Graph, from: Digest, author: Author, round: Round, d: Digest)
    requires RoundsDescend(g) && Support(g, from, author, round) == Some(None) && g[from].round > round
    requires d in g && g[d].author == author && g[d].round == round
    ensures Linked(g, from, d) != Some(true)
    decreases RoundOf(g, from), 1, 0
  {
    forall p | p in g[from].parents ensures !(p in g && Linked(g, p, d) == Some(true)) {
      var i :| 0 <= i < |g[from].parents| && g[from].parents[i] == p;
      SupportScanNone(g, from, author, round, 0, i, d);
    }
  }

  lemma {:induction false} SupportScanNone(g: Graph, from: Digest, author: Author, round: Round, i: nat, j: nat,
                                           d: Digest)
    requires RoundsDescend(g) && from in g && g[from].round > round && i <= j < |g[from].parents|
    requires SupportScan(g, from, author, round, i) == Some(None)
    requires d in g && g[d].author == author && g[d].round == round
    ensures Linked(g, g[from].parents[j], d) != Some(true)
    decreases RoundOf(g, from), 0, |g[from].parents| - i
  {
    var p := g[from].parents[i];
    assert p in g[from].parents;
    if i < j {
      SupportScanNone(g, from, author, round, i + 1, j, d);
    } else if g[p].round > round {
      SupportNone(g, p, author, round, d);
    }
  }

  // ---------------------------------------------------------------- which block is the support

  /** The block at the end of a walk given by parent positions. */
  ghost function Walked(g: Graph, from: Digest, ps: seq<nat>): Option<Digest>
    decreases |ps|
  {
    if ps == [] then Some(from)
    else if from in g && ps[0] < |g[from].parents| then Walked(g, g[from].parents[ps[0]], ps[1..])
    else None
  }

  /** The walk ends at a stored block of this author and round. */
  ghost predicate EndsAt(g: Graph, from: Digest, ps: seq<nat>, author: Author, round: Round) {
    Walked(g, from, ps).Some? &&
    var d := Walked(g, from, ps).value; d in g && g[d].author == author && g[d].round == round
  }

  /** At the first difference `ps` takes the earlier position. */
  ghost predicate Earlier(ps: seq<nat>, qs: seq<nat>) {
    exists k :: 0 <= k < |ps| && k < |qs| && ps[..k] == qs[..k] && ps[k] < qs[k]
  }

  lemma EarlierCons(i: nat, ps: seq<nat>, qs: seq<nat>)
    requires Earlier(ps, qs)
    ensures Earlier([i] + ps, [i] + qs)
  {
    var k :| 0 <= k < |ps| && k < |qs| && ps[..k] == qs[..k] && ps[k] < qs[k];
    assert ([i] + ps)[..k + 1] == [i] + ps[..k] && ([i] + qs)[..k + 1] == [i] + qs[..k];
  }

  lemma EarlierHead(ps: seq<nat>, qs: seq<nat>)
    requires ps != [] && qs != [] && ps[0] < qs[0]
    ensures Earlier(ps, qs)
  {
    assert ps[..0] == qs[..0];
  }

  lemma {:induction false} WalkedLinked(g: Graph, from: Digest, ps: seq<nat>, d: Digest)
    requires RoundsDescend(g) && Walked(g, from, ps) == Some(d) && d in g
    ensures Linked(g, from, d) == Some(true)
    decreases |ps|
  {
    if ps != [] {
      var p := g[from].parents[ps[0]];
      WalkedLinked(g, p, ps[1..], d);
      assert p in g[from].parents;
      if p in g { LinkedRounds(g, p, d); }
    }
  }

  /** Of all walks from `from` to a block of the slot, the support lies at the end of the one that
      comes first in parent positions. */
  lemma {:induction false} SupportFirst(g: Graph, from: Digest, author: Author, round: Round) returns (ps: seq<nat>)
    requires RoundsDescend(g)
    requires Support(g, from, author, round).Some? && Support(g, from, author, round).value.Some?
    ensures Walked(g, from, ps) == Support(g, from, author, round).value && EndsAt(g, from, ps, author, round)
    ensures forall qs :: EndsAt(g, from, qs, author, round) ==> qs == ps || Earlier(ps, qs)
    decreases RoundOf(g, from), 1, 0
  {
    ps := SupportScanFirst(g, from, author, round, 0);
    assert !EndsAt(g, from, [], author, round);
  }

  lemma {:induction false} SupportScanFirst(g: Graph, from: Digest, author: Author, round: Round, i: nat)
    returns (ps: seq<nat>)
    requires RoundsDescend(g) && from in g && i <= |g[from].parents| && g[from].round > round
    requires SupportScan(g, from, author, round, i).Some? && SupportScan(g, from, author, round, i).value.Some?
    ensures Walked(g, from, ps) == SupportScan(g, from, author, round, i).value && EndsAt(g, from, ps, author, round)
    ensures ps != [] && ps[0] >= i
    ensures forall qs :: qs != [] && qs[0] >= i && EndsAt(g, from, qs, author, round) ==> qs == ps || Earlier(ps, qs)
    decreases RoundOf(g, from), 0, |g[from].parents| - i
  {
    hide Earlier;
    var p := g[from].parents[i];
    assert p in g[from].parents;
    if g[p].round == round && g[p].author == author {
      ps := [i];
      forall qs | qs != [] && qs[0] >= i && EndsAt(g, from, qs, author, round) ensures qs == ps || Earlier(ps, qs) {
        if qs[0] == i { StopsAt(g, p, qs[1..], author, round); } else { EarlierHead(ps, qs); }
      }
    } else if g[p].round > round && Support(g, p, author, round) != Some(None) {
      var rest := SupportFirst(g, p, author, round);
      ps := [i] + rest;
      forall qs | qs != [] && qs[0] >= i && EndsAt(g, from, qs, author, round) ensures qs == ps || Earlier(ps, qs) {
        if qs[0] == i {
          assert qs == [i] + qs[1..];
          if qs[1..] != rest { EarlierCons(i, rest, qs[1..]); }
        } else {
          EarlierHead(ps, qs);
        }
      }
    } else {
      ps := SupportScanFirst(g, from, author, round, i + 1);
      forall qs | qs != [] && qs[0] == i ensures !EndsAt(g, from, qs, author, round) {
        if EndsAt(g, p, qs[1..], author, round) { NoWalkToSlot(g, p, qs[1..], author, round); }
      }
    }
  }

  /** A walk from a block of the slot's round that ends in the slot is empty. */
  lemma StopsAt(g: Graph, p: Digest, ps: seq<nat>, author: Author, round: Round)
    requires RoundsDescend(g) && p in g && g[p].round == round && EndsAt(g, p, ps, author, round)
    ensures ps == []
  {
    if ps != [] {
      var q := g[p].parents[ps[0]];
      assert q in g[p].parents;
      var d := Walked(g, p, ps).value;
      WalkedLinked(g, q, ps[1..], d);
      if q in g { LinkedRounds(g, q, d); }
    }
  }

  lemma NoWalkToSlot(g: Graph, p: Digest, ps: seq<nat>, author: Author, round: Round)
    requires RoundsDescend(g) && p in g && EndsAt(g, p, ps, author, round)
    ensures (g[p].author == author && g[p].round == round) || (g[p].round > round
              && Support(g, p, author, round) != Some(None))
  {
    var d := Walked(g, p, ps).value;
    WalkedLinked(g, p, ps, d);
    LinkedRounds(g, p, d);
    if g[p].round > round && Support(g, p, author, round) == Some(None) { SupportNone(g, p, author, round, d); }
  }

  // ---------------------------------------------------------------- what a certificate is

  /** A block certifies a leader exactly when the authors of its parents in the round just below, whose
      support in the leader's slot is this leader, carry more than two thirds of the stake. */
  lemma CertifiesMeans(c: Committee, g: Graph, cert: Digest, l: Digest, backers: set<Author>)
    requires RoundsDescend(g) && cert in g && l in g && g[cert].round > 0
    requires forall a :: a in backers <==>
               exists p :: p in g[cert].parents && p in g && g[p].round + 1 == g[cert].round && g[p].author == a
                           && Support(g, p, g[l].author, g[l].round) == Some(Some(l))
    ensures Certifies(c, g, cert, l) == Some(true) <==> c.Weight(backers) >= 2 * c.Total() / 3 + 1
  {
    hide Support, Committee.Weight;
    var n := |g[cert].parents|;
    forall a | a in backers ensures a in Voters(g, cert, l, n) {
      var p :| p in g[cert].parents && p in g && g[p].round + 1 == g[cert].round && g[p].author == a
               && Support(g, p, g[l].author, g[l].round) == Some(Some(l));
      var i :| 0 <= i < n && g[cert].parents[i] == p;
      assert VotesAt(g, cert, l, i);
    }
    forall a | a in Voters(g, cert, l, n) ensures a in backers {
      var i :| 0 <= i < n && VotesAt(g, cert, l, i) && g[g[cert].parents[i]].author == a;
      assert g[cert].parents[i] in g[cert].parents;
    }
    assert backers == Voters(g, cert, l, n);
  }

  /** What a block of a closed part reaches in the whole lies in the part. */
  lemma {:induction false} LinkedStaysInside(g: Graph, g': Graph, from: Digest, to: Digest)
    requires RoundsDescend(g) && RoundsDescend(g') && Extends(g, g') && Closed(g) && from in g
    requires Linked(g', from, to) == Some(true)
    ensures to in g && Linked(g, from, to) == Some(true)
    decreases RoundOf(g, from)
  {
    if from != to {
      var p :| p in g'[from].parents && p in g' && g'[p].round >= g'[to].round && Linked(g', p, to) == Some(true);
      LinkedStaysInside(g, g', p, to);
    }
  }
}
