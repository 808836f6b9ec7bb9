/** Verification of vote sets, and what a verified quorum says about the network. */
module Messages {
  import opened Quorums
  import opened ConsensusState

  ghost function VoteAuthors(votes: seq<Vote>): set<Author> { set v | v in votes :: v.author }

  ghost predicate DistinctAuthors(votes: seq<Vote>) {
    forall i, j :: 0 <= i < j < |votes| ==> votes[i].author != votes[j].author
  }

  /** A vote for the given header, from an authority with voting rights. */
  ghost predicate VoteFor(c: Committee, v: Vote, id: Digest, round: Round, origin: Author) {
    v.id == id && v.round == round && v.origin == origin && c.Stake(v.author) > 0
  }

  /** What vote sanitising guarantees: a vote for the header and, with `dated`, a positive voter
      round. */
  ghost predicate Sanitised(c: Committee, v: Vote, id: Digest, round: Round, origin: Author, dated: bool) {
    VoteFor(c, v, id, round, origin) && (dated ==> v.voterRound > 0)
  }

  /** A quorum of distinct authorities voted for the given header. */
  ghost predicate QuorumFor(c: Committee, votes: seq<Vote>, id: Digest, round: Round, origin: Author, dated: bool) {
    && (forall v :: v in votes ==> Sanitised(c, v, id, round, origin, dated))
    && DistinctAuthors(votes)
    && c.Weight(VoteAuthors(votes)) >= c.QuorumThreshold()
  }

  datatype Error =
    | MalformedHeader | AuthorityReuse(author: Author) | UnknownAuthority(author: Author) | RequiresQuorum

  lemma AuthorsStep(votes: seq<Vote>, n: nat)
    requires n < |votes|
    ensures VoteAuthors(votes[..n + 1]) == VoteAuthors(votes[..n]) + {votes[n].author}
  {
    assert votes[..n + 1] == votes[..n] + [votes[n]];
    assert votes[n] in votes[..n + 1];
  }

  lemma DistinctStep(votes: seq<Vote>, n: nat)
    requires n < |votes| && DistinctAuthors(votes[..n])
    ensures DistinctAuthors(votes[..n + 1]) <==> votes[n].author !in VoteAuthors(votes[..n])
  {
    var front, all := votes[..n], votes[..n + 1];
    if votes[n].author in VoteAuthors(front) {
      var v :| v in front && v.author == votes[n].author;
      var i :| 0 <= i < n && front[i] == v;
      assert all[i].author == all[n].author;
    } else {
      forall i, j | 0 <= i < j < |all| ensures all[i].author != all[j].author {
        if j == n { assert front[i] in front; } else { assert front[i].author != front[j].author; }
      }
    }
  }

  /** The vote loop of certificate and embedded-QC verification; signatures are taken as checked. */
  method VerifyVotes(c: Committee, votes: seq<Vote>, id: Digest, round: Round, origin: Author, dated: bool)
    returns (error: Option<Error>)
    ensures error == None <==> QuorumFor(c, votes, id, round, origin, dated)
    ensures error == None <==>
              && (forall v :: v in votes ==>
                    v.id == id && v.round == round && v.origin == origin && c.Stake(v.author) > 0
                    && (dated ==> v.voterRound > 0))
              && (forall i, j :: 0 <= i < j < |votes| ==> votes[i].author != votes[j].author)
              && c.Weight(VoteAuthors(votes)) >= 2 * c.Total() / 3 + 1
    ensures error == Some(RequiresQuorum) ==>
              c.Weight(VoteAuthors(votes)) < c.QuorumThreshold() && DistinctAuthors(votes)
    ensures error.Some? && error.value.AuthorityReuse? ==> !DistinctAuthors(votes)
  {
    hide Committee.Weight;
    var weight := 0;
    var used: set<Author> := {};
    var i := 0;
    WeightNone(c, votes);
    while i < |votes|
      invariant 0 <= i <= |votes|
      invariant forall v :: v in votes[..i] ==> Sanitised(c, v, id, round, origin, dated)
      invariant DistinctAuthors(votes[..i]) && used == VoteAuthors(votes[..i]) && weight == c.Weight(used)
    {
      var vote := votes[i];
      assert vote in votes;
      if vote.id != id || vote.round != round || vote.origin != origin || (dated && vote.voterRound == 0) {
        return Some(MalformedHeader);
      }
      DistinctStep(votes, i);
      AuthorsStep(votes, i);
      if vote.author in used {
        PrefixNotDistinct(votes, i + 1);
        return Some(AuthorityReuse(vote.author));
      }
      if c.Stake(vote.author) == 0 {
        return Some(UnknownAuthority(vote.author));
      }
      WeightAdd(c, used, vote.author);
      used := used + {vote.author};
      weight := weight + c.Stake(vote.author);
      assert votes[..i + 1] == votes[..i] + [vote];
      i := i + 1;
    }
    assert votes[..i] == votes;
    if weight < c.QuorumThreshold() {
      return Some(RequiresQuorum);
    }
    return None;
  }

  lemma WeightNone(c: Committee, votes: seq<Vote>)
    ensures VoteAuthors(votes[..0]) == {} && c.Weight({}) == 0
  {
  }

  lemma PrefixNotDistinct(votes: seq<Vote>, n: nat)
    requires n <= |votes| && !DistinctAuthors(votes[..n])
    ensures !DistinctAuthors(votes)
  {
    var i, j :| 0 <= i < j < n && votes[..n][i].author == votes[..n][j].author;
    assert votes[i].author == votes[j].author;
  }

  // ---------------------------------------------------------------- embedded QCs

  /** What header verification guarantees about an embedded QC. */
  ghost predicate QcSound(c: Committee, h: Header) {
    h.qc.Some? ==>
      var qc := h.qc.value;
      qc.round + 1 == h.round && QuorumFor(c, qc.votes, qc.target, qc.round, h.author, true)
  }

  /** On the fields: a QC for the author's previous round, with one dated vote each from authors of more than
      two thirds of the stake. */
  lemma QcSoundMeans(c: Committee, h: Header)
    ensures QcSound(c, h) <==>
            (h.qc.Some? ==>
               && h.qc.value.round + 1 == h.round
               && (forall v :: v in h.qc.value.votes ==>
                     v.id == h.qc.value.target && v.round == h.qc.value.round && v.origin == h.author
                     && c.Stake(v.author) > 0 && v.voterRound > 0)
               && (forall i, j :: 0 <= i < j < |h.qc.value.votes| ==>
                     h.qc.value.votes[i].author != h.qc.value.votes[j].author)
               && c.Weight(VoteAuthors(h.qc.value.votes)) >= 2 * c.Total() / 3 + 1)
  {
    hide Committee.Weight;
  }

  method VerifyEmbeddedQc(c: Committee, h: Header) returns (error: Option<Error>)
    ensures error == None <==> QcSound(c, h)
  {
    if h.qc == None {
      return None;
    }
    var qc := h.qc.value;
    if qc.round + 1 != h.round {
      return Some(MalformedHeader);
    }
    error := VerifyVotes(c, qc.votes, qc.target, qc.round, h.author, true);
  }

  function ToEmbeddedQc(cert: Certificate): EmbeddedQc { EmbeddedQc(cert.Digest(), cert.Round(), cert.votes) }

  /** A certificate embedded in its author's next header passes the embedded check. */
  lemma CertificateEmbeds(c: Committee, cert: Certificate, next: Header)
    requires QuorumFor(c, cert.votes, cert.Digest(), cert.Round(), cert.Origin(), true)
    requires next.author == cert.Origin() && next.round == cert.Round() + 1 && next.qc == Some(ToEmbeddedQc(cert))
    ensures QcSound(c, next)
  {
  }

  // ---------------------------------------------------------------- quorums of honest voters

  /** Votes of one voter for the same (author, round). */
  predicate SameSlot(v: Vote, w: Vote) { v.author == w.author && v.origin == w.origin && v.round == w.round }

  /** Everything ever signed, and the authorities whose behaviour is unknown: the others sign at
      most one header per (author, round). */
  ghost predicate OneVotePerSlot(c: Committee, signed: set<Vote>, byz: set<Author>) {
    && c.Weight(byz) < c.ValidityThreshold()
    && (forall v, w :: v in signed && w in signed && SameSlot(v, w) && v.author !in byz ==> v.id == w.id)
  }

  /** Two quorums for one (author, round) certify one header. */
  lemma QuorumsCertifyOne(c: Committee, signed: set<Vote>, byz: set<Author>, vs: seq<Vote>, ws: seq<Vote>,
                          id: Digest, id': Digest, round: Round, origin: Author, dated: bool)
    requires OneVotePerSlot(c, signed, byz)
    requires QuorumFor(c, vs, id, round, origin, dated) && QuorumFor(c, ws, id', round, origin, dated)
    requires (forall v :: v in vs ==> v in signed) && (forall w :: w in ws ==> w in signed)
    ensures id == id'
  {
    hide Committee.Weight;
    var h := HonestIntersection(c, byz, VoteAuthors(vs), VoteAuthors(ws));
    var v :| v in vs && v.author == h;
    var w :| w in ws && w.author == h;
  }

  // ---------------------------------------------------------------- Mahi-Mahi parents

  ghost function PreviousAuthors(round: Round, parents: seq<Certificate>): set<Author> {
    set p | p in parents && p.Round() + 1 == round :: p.Origin()
  }

  lemma PreviousStep(round: Round, parents: seq<Certificate>, n: nat)
    requires n < |parents|
    ensures PreviousAuthors(round, parents[..n + 1]) == PreviousAuthors(round, parents[..n])
            + (if parents[n].Round() + 1 == round then {parents[n].Origin()} else {})
  {
    assert parents[..n + 1] == parents[..n] + [parents[n]];
    assert parents[n] in parents[..n + 1];
  }

  /** All parents are in lower rounds, and those of the previous round carry a quorum of authors. */
  ghost predicate MahiParents(c: Committee, round: Round, parents: seq<Certificate>) {
    (forall p :: p in parents ==> p.Round() < round) && c.Weight(PreviousAuthors(round, parents)) >= c.QuorumThreshold()
  }

  lemma MahiParentsMeans(c: Committee, round: Round, parents: seq<Certificate>, authors: set<Author>)
    requires forall a :: a in authors <==>
               exists p :: p in parents && p.header.round + 1 == round && p.header.author == a
    ensures MahiParents(c, round, parents) <==>
            && (forall p :: p in parents ==> p.header.round < round)
            && c.Weight(authors) >= 2 * c.Total() / 3 + 1
  {
    hide Committee.Weight;
    assert authors == PreviousAuthors(round, parents);
  }

  /** A Mahi-Mahi block is accepted exactly when all parents are in lower rounds and those of the
      previous round carry a quorum of distinct authors. */
  method ValidateMahiParents(c: Committee, round: Round, parents: seq<Certificate>) returns (error: Option<Error>)
    ensures error == None <==> MahiParents(c, round, parents)
  {
    hide Committee.Weight;
    var authors: set<Author> := {};
    var stake := 0;
    WeightNone(c, []);
    var i := 0;
    while i < |parents|
      invariant 0 <= i <= |parents|
      invariant forall p :: p in parents[..i] ==> p.Round() < round
      invariant authors == PreviousAuthors(round, parents[..i]) && stake == c.Weight(authors)
    {
      var p := parents[i];
      assert p in parents;
      if p.Round() >= round {
        return Some(MalformedHeader);
      }
      PreviousStep(round, parents, i);
      if p.Round() + 1 == round && p.Origin() !in authors {
        WeightAdd(c, authors, p.Origin());
        authors := authors + {p.Origin()};
        stake := stake + c.Stake(p.Origin());
      }
      assert parents[..i + 1] == parents[..i] + [p];
      i := i + 1;
    }
    assert parents[..i] == parents;
    if stake < c.QuorumThreshold() {
      return Some(RequiresQuorum);
    }
    return None;
  }

  // ---------------------------------------------------------------- Narwhal and Bullshark parents

  ghost function Origins(parents: seq<Certificate>): set<Author> { set p | p in parents :: p.Origin() }

  lemma OriginsStep(parents: seq<Certificate>, n: nat)
    requires n < |parents|
    ensures Origins(parents[..n + 1]) == Origins(parents[..n]) + {parents[n].Origin()}
  {
    assert parents[..n + 1] == parents[..n] + [parents[n]];
    assert parents[n] in parents[..n + 1];
  }

  /** A header above genesis is accepted exactly when all parents are of the previous round and
      carry a quorum of distinct authors. */
  method ValidateParents(c: Committee, round: Round, parents: seq<Certificate>) returns (error: Option<Error>)
    ensures error == None <==>
              round == 0
              || ((forall p :: p in parents ==> p.Round() + 1 == round)
                  && c.Weight(Origins(parents)) >= c.QuorumThreshold())
  {
    hide Committee.Weight;
    if round == 0 {
      return None;
    }
    var authors: set<Author> := {};
    var stake := 0;
    WeightNone(c, []);
    var i := 0;
    while i < |parents|
      invariant 0 <= i <= |parents|
      invariant forall p :: p in parents[..i] ==> p.Round() + 1 == round
      invariant authors == Origins(parents[..i]) && stake == c.Weight(authors)
    {
      var p := parents[i];
      assert p in parents;
      if p.Round() + 1 != round {
        return Some(MalformedHeader);
      }
      OriginsStep(parents, i);
      if p.Origin() !in authors {
        WeightAdd(c, authors, p.Origin());
        stake := stake + c.Stake(p.Origin());
      } else {
        assert authors + {p.Origin()} == authors;
      }
      authors := authors + {p.Origin()};
      assert parents[..i + 1] == parents[..i] + [p];
      i := i + 1;
    }
    assert parents[..i] == parents;
    if stake < c.QuorumThreshold() {
      return Some(RequiresQuorum);
    }
    return None;
  }
}
