/** The indexed block store with its three memo tables.  Every query returns exactly what
    the uncached definition in `MahiGraph` says of the current graph. */
module MahiStore {
  import opened Quorums
  import opened MahiGraph

  type RoundIndex = map<Round, map<Author, set<Digest>>>
  type SupportCache = map<(Digest, Author, Round), Option<Digest>>
  type PairCache = map<(Digest, Digest), bool>

  function IndexInsert(index: RoundIndex, digest: Digest, block: Block): RoundIndex {
    var byAuthor: map<Author, set<Digest>> := if block.round in index then index[block.round] else map[];
    var digests: set<Digest> := if block.author in byAuthor then byAuthor[block.author] else {};
    index[block.round := byAuthor[block.author := digests + {digest}]]
  }

  /** The round index holds exactly the stored blocks, with no empty entries. */
  ghost predicate Indexed(index: RoundIndex, g: Graph) {
    && (forall d :: d in g ==>
          var b := g[d];
          b.round in index && b.author in index[b.round] && d in index[b.round][b.author])
    && (forall r, a, d :: r in index && a in index[r] && d in index[r][a] ==>
          d in g && g[d].round == r && g[d].author == a)
    && (forall r :: r in index ==> index[r] != map[])
    && (forall r, a :: r in index && a in index[r] ==> index[r][a] != {})
  }

  lemma IndexStep(index: RoundIndex, g: Graph, digest: Digest, block: Block)
    requires Indexed(index, g) && digest !in g
    ensures Indexed(IndexInsert(index, digest, block), g[digest := block])
  {
    var index', g' := IndexInsert(index, digest, block), g[digest := block];
    forall r, a, d | r in index' && a in index'[r] && d in index'[r][a]
      ensures d in g' && g'[d].round == r && g'[d].author == a
    {
      if d != digest {
        assert r in index && a in index[r] && d in index[r][a];
      }
    }
    forall d | d in g'
      ensures var b := g'[d]; b.round in index' && b.author in index'[b.round] && d in index'[b.round][b.author]
    {
      if d != digest { assert d in g; }
    }
  }

  function Digests(blocks: seq<(Digest, Block)>): set<Digest> { set b | b in blocks :: b.0 }

  lemma DigestsLast(blocks: seq<(Digest, Block)>)
    requires blocks != []
    ensures var last := |blocks| - 1; Digests(blocks) == Digests(blocks[..last]) + {blocks[last].0}
  {
    var last := |blocks| - 1;
    assert blocks == blocks[..last] + [blocks[last]];
    forall d | d in Digests(blocks) ensures d in Digests(blocks[..last]) + {blocks[last].0} {
      var x :| x in blocks && x.0 == d;
      assert x in blocks[..last] || x == blocks[last];
    }
    assert blocks[last] in blocks;
  }

  /** No block references another. */
  ghost predicate Rootless(g: Graph) {
    forall d :: d in g ==> g[d].parents == []
  }

  lemma RootlessInsert(g: Graph, d: Digest, b: Block)
    requires Rootless(g) && b.parents == []
    ensures Rootless(g[d := b]) && RoundsDescend(g[d := b])
  {
  }

  ghost predicate SupportExact(g: Graph, cache: SupportCache)
    requires RoundsDescend(g)
  {
    forall k :: k in cache ==> Support(g, k.0, k.1, k.2) == Some(cache[k])
  }

  ghost predicate CertificatesExact(c: Committee, g: Graph, cache: PairCache)
    requires RoundsDescend(g)
  {
    forall k :: k in cache ==> Certifies(c, g, k.0, k.1) == Some(cache[k])
  }

  ghost predicate LinksExact(g: Graph, cache: PairCache)
    requires RoundsDescend(g)
  {
    forall k :: k in cache ==> Linked(g, k.0, k.1) == Some(cache[k])
  }

  /** Growing the graph keeps every memoised answer right. */
  lemma SupportSurvives(g: Graph, g': Graph, cache: SupportCache)
    requires RoundsDescend(g) && RoundsDescend(g') && Extends(g, g') && SupportExact(g, cache)
    ensures SupportExact(g', cache)
  {
    forall k | k in cache ensures Support(g', k.0, k.1, k.2) == Some(cache[k]) {
      SupportStable(g, g', k.0, k.1, k.2);
    }
  }

  lemma CertificatesSurvive(c: Committee, g: Graph, g': Graph, cache: PairCache)
    requires RoundsDescend(g) && RoundsDescend(g') && Extends(g, g') && CertificatesExact(c, g, cache)
    ensures CertificatesExact(c, g', cache)
  {
    forall k | k in cache ensures Certifies(c, g', k.0, k.1) == Some(cache[k]) {
      CertifiesStable(c, g, g', k.0, k.1);
    }
  }

  lemma LinksSurvive(g: Graph, g': Graph, cache: PairCache)
    requires RoundsDescend(g) && RoundsDescend(g') && Extends(g, g') && LinksExact(g, cache)
    ensures LinksExact(g', cache)
  {
    forall k | k in cache ensures Linked(g', k.0, k.1) == Some(cache[k]) {
      LinkedStable(g, g', k.0, k.1);
    }
  }

  class MahiDag {
    const committee: Committee
    var byRound: RoundIndex
    var byDigest: Graph
    var supportCache: SupportCache
    var certificateCache: PairCache
    var linkCache: PairCache

    ghost predicate Valid()
      reads this
    {
      && RoundsDescend(byDigest)
      && Indexed(byRound, byDigest)
      && SupportExact(byDigest, supportCache)
      && CertificatesExact(committee, byDigest, certificateCache)
      && LinksExact(byDigest, linkCache)
    }

    /** Starts from genesis blocks, which reference nothing. */
    constructor (committee: Committee, genesis: seq<(Digest, Block)>)
      requires forall i :: 0 <= i < |genesis| ==> genesis[i].1.parents == []
      ensures Valid() && this.committee == committee
      ensures byDigest.Keys == Digests(genesis) && Rootless(byDigest)
      ensures forall d :: d in byDigest ==> (d, byDigest[d]) in genesis
    {
      this.committee := committee;
      byRound, byDigest := map[], map[];
      supportCache, certificateCache, linkCache := map[], map[], map[];
      new;
      InsertGenesis(genesis);
    }

    method InsertGenesis(genesis: seq<(Digest, Block)>)
      requires Valid() && Rootless(byDigest)
      requires forall i :: 0 <= i < |genesis| ==> genesis[i].1.parents == []
      modifies this`byRound, this`byDigest
      ensures Valid() && Rootless(byDigest)
      ensures byDigest.Keys == old(byDigest.Keys) + Digests(genesis)
      ensures forall d :: d in byDigest ==>
                (d in old(byDigest) && byDigest[d] == old(byDigest)[d]) || (d, byDigest[d]) in genesis
    {
      hide MahiDag.Valid, Rootless;
      if genesis != [] {
        var last := |genesis| - 1;
        InsertGenesis(genesis[..last]);
        DigestsLast(genesis);
        RootlessInsert(byDigest, genesis[last].0, genesis[last].1);
        var _ := Insert(genesis[last].0, genesis[last].1);
      }
    }

    /** Store a block.  Equivocations are kept side by side and no memoised answer is dropped. */
    method Insert(digest: Digest, block: Block) returns (inserted: bool)
      requires Valid()
      requires digest !in byDigest ==> RoundsDescend(byDigest[digest := block])
      modifies this`byRound, this`byDigest
      ensures Valid()
      ensures inserted <==> digest !in old(byDigest)
      ensures byDigest == if inserted then old(byDigest)[digest := block] else old(byDigest)
      ensures Extends(old(byDigest), byDigest)
    {
      if digest in byDigest {
        return false;
      }
      ghost var after := byDigest[digest := block];
      SupportSurvives(byDigest, after, supportCache);
      CertificatesSurvive(committee, byDigest, after, certificateCache);
      LinksSurvive(byDigest, after, linkCache);
      IndexStep(byRound, byDigest, digest, block);
      byRound := IndexInsert(byRound, digest, block);
      byDigest := byDigest[digest := block];
      return true;
    }

    /** The largest stored round, 0 when nothing is stored. */
    method HighestRound() returns (round: Round)
      requires Valid()
      ensures forall d :: d in byDigest ==> byDigest[d].round <= round
      ensures round == 0 || exists d :: d in byDigest && byDigest[d].round == round
    {
      round := 0;
      var rest := byRound.Keys;
      while rest != {}
        invariant rest <= byRound.Keys
        invariant forall r :: r in byRound && r !in rest ==> r <= round
        invariant round == 0 || round in byRound
        decreases rest
      {
        var r := Least(rest);
        if r > round { round := r; }
        rest := rest - {r};
      }
      if round != 0 {
        var a :| a in byRound[round];
        var d :| d in byRound[round][a];
        assert byDigest[d].round == round;
      }
    }

    /** All blocks of one round, equivocations included. */
    method RoundDigests(round: Round) returns (digests: set<Digest>)
      requires Valid()
      ensures digests == set d | d in byDigest && byDigest[d].round == round
    {
      digests := {};
      if round in byRound {
        var rest := byRound[round].Keys;
        while rest != {}
          invariant rest <= byRound[round].Keys
          invariant forall d :: d in digests <==>
            d in byDigest && byDigest[d].round == round && byDigest[d].author !in rest
          decreases rest
        {
          var a := Least(rest);
          digests := digests + byRound[round][a];
          rest := rest - {a};
        }
      }
    }

    /** All blocks of one author in one round. */
    method SlotDigests(author: Author, round: Round) returns (digests: set<Digest>)
      requires Valid()
      ensures digests == set d | d in byDigest && byDigest[d].round == round && byDigest[d].author == author
    {
      digests := if round in byRound && author in byRound[round] then byRound[round][author] else {};
    }

    method FindSupport(from: Digest, author: Author, round: Round) returns (r: Option<Option<Digest>>)
      requires Valid()
      modifies this`supportCache
      ensures Valid()
      ensures r == Support(byDigest, from, author, round)
    {
      r := FindSupportInner(from, author, round, {});
    }

    /** `visiting` holds the blocks on the current walk; they all lie above `from`. */
    method FindSupportInner(from: Digest, author: Author, round: Round, visiting: set<Digest>)
      returns (r: Option<Option<Digest>>)
      requires RoundsDescend(byDigest) && SupportExact(byDigest, supportCache)
      requires forall v :: v in visiting ==> v in byDigest && RoundOf(byDigest, from) < byDigest[v].round
      modifies this`supportCache
      ensures SupportExact(byDigest, supportCache)
      ensures r == Support(byDigest, from, author, round)
      decreases RoundOf(byDigest, from)
    {
      var key := (from, author, round);
      if key in supportCache {
        return Some(supportCache[key]);
      }
      if from in visiting || from !in byDigest {
        return None;
      }
      var block := byDigest[from];
      if block.round <= round {
        supportCache := supportCache[key := None];
        return Some(None);
      }
      var i := 0;
      while i < |block.parents|
        invariant 0 <= i <= |block.parents|
        invariant SupportExact(byDigest, supportCache)
        invariant Support(byDigest, from, author, round) == SupportScan(byDigest, from, author, round, i)
      {
        var parent := block.parents[i];
        if parent !in byDigest {
          return None;
        }
        var p := byDigest[parent];
        if p.round == round && p.author == author {
          supportCache := supportCache[key := Some(parent)];
          return Some(Some(parent));
        }
        if p.round > round {
          assert parent in block.parents;
          var s := FindSupportInner(parent, author, round, visiting + {from});
          match s
          case Some(Some(support)) =>
            supportCache := supportCache[key := Some(support)];
            return s;
          case Some(None) =>
          case None =>
            return None;
        }
        i := i + 1;
      }
      supportCache := supportCache[key := None];
      return Some(None);
    }

    method IsVote(vote: Digest, leader: Digest) returns (r: Option<bool>)
      requires RoundsDescend(byDigest) && SupportExact(byDigest, supportCache)
      modifies this`supportCache
      ensures SupportExact(byDigest, supportCache)
      ensures r == MahiGraph.IsVote(byDigest, vote, leader)
    {
      if leader !in byDigest {
        return None;
      }
      var s := FindSupportInner(vote, byDigest[leader].author, byDigest[leader].round, {});
      r := if s == None then None else Some(s.value == Some(leader));
    }

    method IsCertificate(certificate: Digest, leader: Digest) returns (r: Option<bool>)
      requires Valid()
      modifies this`supportCache, this`certificateCache
      ensures Valid()
      ensures r == Certifies(committee, byDigest, certificate, leader)
    {
      if (certificate, leader) in certificateCache {
        return Some(certificateCache[(certificate, leader)]);
      }
      r := CountVoters(certificate, leader);
      if r != None {
        certificateCache := certificateCache[(certificate, leader) := r.value];
      }
    }

    /** The body of the certificate check, run when no memoised answer exists. */
    method CountVoters(certificate: Digest, leader: Digest) returns (r: Option<bool>)
      requires RoundsDescend(byDigest) && SupportExact(byDigest, supportCache)
      modifies this`supportCache
      ensures SupportExact(byDigest, supportCache)
      ensures r == Certifies(committee, byDigest, certificate, leader)
    {
      hide Voters, OpenBefore, OpenAt, SupportExact, Committee.Weight, Support, Committee.QuorumThreshold;
      if certificate !in byDigest {
        return None;
      }
      var n := |byDigest[certificate].parents|;
      VotersNone(committee, byDigest, certificate, leader);
      var voters: set<Author> := {};
      var stake := 0;
      var incomplete := false;
      var i := 0;
      while i < n
        invariant 0 <= i <= n && SupportExact(byDigest, supportCache)
        invariant voters == Voters(byDigest, certificate, leader, i)
        invariant stake == committee.Weight(voters) < committee.QuorumThreshold()
        invariant incomplete == OpenBefore(byDigest, certificate, leader, i)
      {
        voters, stake, incomplete := CountParent(certificate, leader, i, voters, stake, incomplete);
        i := i + 1;
        if stake >= committee.QuorumThreshold() {
          EnoughVoters(committee, byDigest, certificate, leader, i);
          return Some(true);
        }
      }
      r := if incomplete then None else Some(false);
    }

    /** One step of the certificate check: the parent at position `i`. */
    method CountParent(certificate: Digest, leader: Digest, i: nat, voters: set<Author>, stake: nat, incomplete: bool)
      returns (voters': set<Author>, stake': nat, incomplete': bool)
      requires RoundsDescend(byDigest) && SupportExact(byDigest, supportCache)
      requires certificate in byDigest && i < |byDigest[certificate].parents|
      requires voters == Voters(byDigest, certificate, leader, i) && stake == committee.Weight(voters)
      requires incomplete == OpenBefore(byDigest, certificate, leader, i)
      modifies this`supportCache
      ensures SupportExact(byDigest, supportCache)
      ensures voters' == Voters(byDigest, certificate, leader, i + 1) && stake' == committee.Weight(voters')
      ensures incomplete' == OpenBefore(byDigest, certificate, leader, i + 1)
    {
      hide SupportExact, Support, Voters, OpenBefore;
      voters', stake', incomplete' := voters, stake, incomplete;
      VotersStep(byDigest, certificate, leader, i);
      OpenStep(byDigest, certificate, leader, i);
      var parent := byDigest[certificate].parents[i];
      if parent !in byDigest {
        incomplete' := true;
      } else if byDigest[parent].round == VoteRound(byDigest[certificate].round) && byDigest[parent].author !in voters {
        var author := byDigest[parent].author;
        var v := IsVote(parent, leader);
        if v == Some(true) {
          WeightAdd(committee, voters, author);
          voters' := voters + {author};
          stake' := stake + committee.Stake(author);
        } else if v == None {
          incomplete' := true;
        }
      } else {
        assert voters + {byDigest[parent].author} == voters || byDigest[parent].author !in voters;
      }
    }

    method IsLinked(from: Digest, target: Digest) returns (r: Option<bool>)
      requires Valid()
      modifies this`linkCache
      ensures Valid()
      ensures r == Linked(byDigest, from, target)
    {
      r := IsLinkedInner(from, target, {});
    }

    method IsLinkedInner(from: Digest, target: Digest, visiting: set<Digest>) returns (r: Option<bool>)
      requires RoundsDescend(byDigest) && LinksExact(byDigest, linkCache)
      requires forall v :: v in visiting ==> v in byDigest && RoundOf(byDigest, from) < byDigest[v].round
      modifies this`linkCache
      ensures LinksExact(byDigest, linkCache)
      ensures r == Linked(byDigest, from, target)
      decreases RoundOf(byDigest, from)
    {
      if from == target {
        return Some(true);
      }
      var key := (from, target);
      if key in linkCache {
        return Some(linkCache[key]);
      }
      if from in visiting || target !in byDigest || from !in byDigest {
        return None;
      }
      var g := byDigest;
      var block := g[from];
      if block.round <= g[target].round {
        linkCache := linkCache[key := false];
        return Some(false);
      }
      var incomplete := false;
      var i := 0;
      while i < |block.parents|
        invariant 0 <= i <= |block.parents|
        invariant g == byDigest && LinksExact(g, linkCache)
        invariant forall j :: 0 <= j < i ==> !LinkAt(g, from, target, j)
        invariant incomplete <==> exists j :: 0 <= j < i && LinkOpenAt(g, from, target, j)
      {
        var parent := block.parents[i];
        assert parent in block.parents;
        if parent !in g {
          incomplete := true;
        } else if g[parent].round >= g[target].round {
          var l := IsLinkedInner(parent, target, visiting + {from});
          if l == Some(true) {
            linkCache := linkCache[key := true];
            return Some(true);
          } else if l == None {
            incomplete := true;
          }
        }
        assert LinkOpenAt(g, from, target, i) ==> incomplete;
        i := i + 1;
      }
      LinkedFromScan(g, from, target);
      if incomplete {
        return None;
      }
      linkCache := linkCache[key := false];
      return Some(false);
    }

    /** Forget memoised answers rooted below `minRootRound`; the graph keeps every block. */
    method PruneCaches(minRootRound: Round)
      requires Valid()
      modifies this`supportCache, this`certificateCache, this`linkCache
      ensures Valid()
      ensures forall k :: k in supportCache <==>
                k in old(supportCache) && k.0 in byDigest && byDigest[k.0].round >= minRootRound
      ensures forall k :: k in certificateCache <==>
                k in old(certificateCache) && k.0 in byDigest && byDigest[k.0].round >= minRootRound
      ensures forall k :: k in linkCache <==>
                k in old(linkCache) && k.0 in byDigest && byDigest[k.0].round >= minRootRound
    {
      hide Support, Certifies, Linked, Indexed;
      supportCache := PruneSupport(byDigest, supportCache, minRootRound);
      certificateCache := PrunePairs(byDigest, certificateCache, minRootRound);
      linkCache := PrunePairs(byDigest, linkCache, minRootRound);
    }
  }

  function PruneSupport(g: Graph, cache: SupportCache, minRootRound: Round): (r: SupportCache)
    ensures forall k :: k in r <==> k in cache && k.0 in g && g[k.0].round >= minRootRound
    ensures forall k :: k in r ==> r[k] == cache[k]
  {
    map k | k in cache && k.0 in g && g[k.0].round >= minRootRound :: cache[k]
  }

  function PrunePairs(g: Graph, cache: PairCache, minRootRound: Round): (r: PairCache)
    ensures forall k :: k in r <==> k in cache && k.0 in g && g[k.0].round >= minRootRound
    ensures forall k :: k in r ==> r[k] == cache[k]
  {
    map k | k in cache && k.0 in g && g[k.0].round >= minRootRound :: cache[k]
  }

  lemma VotersNone(c: Committee, g: Graph, cert: Digest, leader: Digest)
    requires RoundsDescend(g) && cert in g
    ensures Voters(g, cert, leader, 0) == {} && !OpenBefore(g, cert, leader, 0)
    ensures c.Weight({}) == 0 < c.QuorumThreshold()
  {
  }

  lemma EnoughVoters(c: Committee, g: Graph, cert: Digest, leader: Digest, n: nat)
    requires RoundsDescend(g) && cert in g && n <= |g[cert].parents|
    requires c.Weight(Voters(g, cert, leader, n)) >= c.QuorumThreshold()
    ensures Certifies(c, g, cert, leader) == Some(true)
  {
    WeightMonotone(c, Voters(g, cert, leader, n), Voters(g, cert, leader, |g[cert].parents|));
  }

  lemma OpenStep(g: Graph, cert: Digest, leader: Digest, n: nat)
    requires RoundsDescend(g) && cert in g && n < |g[cert].parents|
    ensures OpenBefore(g, cert, leader, n + 1) == (OpenBefore(g, cert, leader, n) || OpenAt(g, cert, leader, n))
  {
  }

  /** The parent at position `i` reaches the target. */
  ghost predicate LinkAt(g: Graph, from: Digest, target: Digest, i: nat)
    requires RoundsDescend(g) && from in g && target in g && i < |g[from].parents|
  {
    var p := g[from].parents[i];
    p in g && g[p].round >= g[target].round && Linked(g, p, target) == Some(true)
  }

  /** The parent at position `i` leaves the question open. */
  ghost predicate LinkOpenAt(g: Graph, from: Digest, target: Digest, i: nat)
    requires RoundsDescend(g) && from in g && target in g && i < |g[from].parents|
  {
    var p := g[from].parents[i];
    p in g ==> g[p].round >= g[target].round && Linked(g, p, target) == None
  }

  lemma LinkedFromScan(g: Graph, from: Digest, target: Digest)
    requires RoundsDescend(g) && from in g && target in g && from != target && g[from].round > g[target].round
    requires forall j :: 0 <= j < |g[from].parents| ==> !LinkAt(g, from, target, j)
    ensures Linked(g, from, target) ==
            if exists j :: 0 <= j < |g[from].parents| && LinkOpenAt(g, from, target, j) then None else Some(false)
  {
    forall p | p in g[from].parents
      ensures !(p in g && g[p].round >= g[target].round && Linked(g, p, target) == Some(true))
    {
      var j :| 0 <= j < |g[from].parents| && g[from].parents[j] == p;
      assert !LinkAt(g, from, target, j);
    }
    if exists j :: 0 <= j < |g[from].parents| && LinkOpenAt(g, from, target, j) {
      var j :| 0 <= j < |g[from].parents| && LinkOpenAt(g, from, target, j);
      assert g[from].parents[j] in g[from].parents;
    } else {
      forall p | p in g[from].parents
        ensures p in g && (g[p].round < g[target].round || Linked(g, p, target) != None)
      {
        var j :| 0 <= j < |g[from].parents| && g[from].parents[j] == p;
        assert !LinkOpenAt(g, from, target, j);
      }
    }
  }
}
