/** Vote and certificate aggregators: each reports its quorum once, at the first moment the
    stake of distinct authors reaches the threshold. */
module Aggregators {
  import opened Quorums
  import opened ConsensusState
  import opened Messages

  /** Counting stake after a reset: the quorum already reported is spent, and what is left of
      the committee cannot reach the threshold again. */
  lemma SpentQuorum(c: Committee, used: set<Author>, spent: set<Author>, author: Author)
    requires spent <= used && author !in used && c.Weight(spent) >= c.QuorumThreshold()
    ensures c.Weight(used - spent + {author}) == c.Weight(used - spent) + c.Stake(author) < c.QuorumThreshold()
    ensures used + {author} - spent == used - spent + {author}
  {
    WeightAdd(c, used - spent, author);
    NoTwoDisjointQuorums(c, spent, used - spent + {author});
  }

  lemma VotesAppend(votes: seq<Vote>, v: Vote)
    ensures VoteAuthors(votes + [v]) == VoteAuthors(votes) + {v.author}
    ensures DistinctAuthors(votes) && v.author !in VoteAuthors(votes) ==> DistinctAuthors(votes + [v])
  {
    var all := votes + [v];
    assert all[..|votes|] == votes && all[..|votes| + 1] == all;
    AuthorsStep(all, |votes|);
    if DistinctAuthors(votes) { DistinctStep(all, |votes|); }
  }

  /** Every vote passed the sanitising checks for this header. */
  ghost predicate AllSanitised(c: Committee, votes: seq<Vote>, header: Header, dated: bool) {
    forall v :: v in votes ==> Sanitised(c, v, header.id, header.round, header.author, dated)
  }

  /** The author's next header, with this certificate embedded. */
  ghost predicate EmbedsNext(cert: Certificate, next: Header) {
    next.author == cert.Origin() && next.round == cert.Round() + 1 && next.qc == Some(ToEmbeddedQc(cert))
  }

  /** Aggregates votes for one header. */
  class VotesAggregator {
    const committee: Committee
    var weight: nat
    var votes: seq<Vote>
    var used: set<Author>
    /** The authors of the reported quorum, once there is one. */
    ghost var spent: Option<set<Author>>

    ghost predicate Valid()
      reads this
    {
      && used == VoteAuthors(votes) && DistinctAuthors(votes)
      && match spent
         case None => weight == committee.Weight(used) && weight < committee.QuorumThreshold()
         case Some(q) => q <= used && committee.Weight(q) >= committee.QuorumThreshold()
                         && weight == committee.Weight(used - q)
    }

    constructor (committee: Committee)
      ensures Valid() && this.committee == committee && votes == [] && spent == None
    {
      this.committee := committee;
      weight, votes, used, spent := 0, [], {}, None;
    }

    /** A repeated vote is ignored.  A certificate is returned exactly when the stake of distinct
        voters reaches the quorum for the first time, and then it carries all votes so far. */
    method Append(vote: Vote, header: Header, ghost dated: bool) returns (certificate: Option<Certificate>)
      requires Valid()
      modifies this
      ensures Valid()
      ensures vote.author in old(used) ==> certificate == None && votes == old(votes) && spent == old(spent)
      ensures vote.author !in old(used) ==> votes == old(votes) + [vote]
      ensures certificate.Some? <==>
                old(spent) == None && vote.author !in old(used)
                && committee.Weight(VoteAuthors(old(votes) + [vote])) >= committee.QuorumThreshold()
      ensures certificate.Some? ==> certificate.value == Certificate(header, votes) && spent == Some(used)
      ensures certificate == None ==> spent == old(spent)
      ensures certificate.Some? && AllSanitised(committee, votes, header, dated) ==>
                QuorumFor(committee, certificate.value.votes, header.id, header.round, header.author, dated)
    {
      hide Committee.Weight, Committee.QuorumThreshold, VoteAuthors, DistinctAuthors;
      if vote.author in used {
        return None;
      }
      VotesAppend(votes, vote);
      WeightAdd(committee, used, vote.author);
      if spent.Some? { SpentQuorum(committee, used, spent.value, vote.author); }
      used := used + {vote.author};
      votes := votes + [vote];
      weight := weight + committee.Stake(vote.author);
      if weight >= committee.QuorumThreshold() {
        weight := 0;
        NothingLeft(committee, used);
        spent := Some(used);
        return Some(Certificate(header, votes));
      }
      return None;
    }
  }

  /** Feed a fresh aggregator any sequence of votes, repeats included: it reports one certificate
      if the distinct voters reach a quorum, and none otherwise.  Built from sanitised votes the
      certificate verifies and, if the votes are dated, passes the embedded check in its author's
      next header. */
  method AggregateVotes(c: Committee, header: Header, votes: seq<Vote>, ghost dated: bool)
    returns (certificates: seq<Certificate>)
    ensures |certificates| ==
            if c.Weight(VoteAuthors(votes)) >= c.QuorumThreshold() then 1 else 0
    ensures |certificates| == 1 && AllSanitised(c, votes, header, dated) ==>
            && certificates[0].header == header
            && QuorumFor(c, certificates[0].votes, header.id, header.round, header.author, dated)
            && (dated ==> forall next :: EmbedsNext(certificates[0], next) ==> QcSound(c, next))
  {
    hide Committee.Weight, Committee.QuorumThreshold, VoteAuthors, DistinctAuthors, Sanitised;
    var a := new VotesAggregator(c);
    certificates := [];
    WeightNone(c, votes);
    NoVotes();
    var i := 0;
    while i < |votes|
      invariant 0 <= i <= |votes| && a.Valid() && fresh(a) && a.committee == c
      invariant a.used == VoteAuthors(votes[..i]) && forall v :: v in a.votes ==> v in votes
      invariant |certificates| == if a.spent.Some? then 1 else 0
      invariant a.spent.Some? && AllSanitised(c, votes, header, dated) ==>
                certificates[0].header == header
                && QuorumFor(c, certificates[0].votes, header.id, header.round, header.author, dated)
    {
      AuthorsStep(votes, i);
      VotesAppend(a.votes, votes[i]);
      assert votes[i].author in a.used ==> a.used + {votes[i].author} == a.used;
      var r := a.Append(votes[i], header, dated);
      if r.Some? { certificates := certificates + [r.value]; }
      i := i + 1;
    }
    assert votes[..i] == votes;
    if a.spent.Some? {
      WeightMonotone(c, a.spent.value, a.used);
      CertificateEmbedsEverywhere(c, certificates[0], dated);
    }
  }

  lemma CertificateEmbedsEverywhere(c: Committee, cert: Certificate, dated: bool)
    ensures dated && QuorumFor(c, cert.votes, cert.Digest(), cert.Round(), cert.Origin(), dated) ==>
              forall next :: EmbedsNext(cert, next) ==> QcSound(c, next)
  {
    if dated && QuorumFor(c, cert.votes, cert.Digest(), cert.Round(), cert.Origin(), dated) {
      forall next | EmbedsNext(cert, next) ensures QcSound(c, next) { CertificateEmbeds(c, cert, next); }
    }
  }

  lemma NoVotes()
    ensures VoteAuthors([]) == {}
  {
  }

  /** Narwhal: aggregates certificates of one round and reports their digests. */
  class CertificatesAggregator {
    const committee: Committee
    var weight: nat
    var certificates: seq<Digest>
    var used: set<Author>
    ghost var spent: Option<set<Author>>
    /** Digests of the first certificate of each author, in arrival order. */
    ghost var accepted: seq<Digest>

    ghost predicate Valid()
      reads this
    {
      match spent
      case None => weight == committee.Weight(used) && weight < committee.QuorumThreshold() && certificates == accepted
      case Some(q) => q <= used && committee.Weight(q) >= committee.QuorumThreshold()
                      && weight == committee.Weight(used - q)
    }

    constructor (committee: Committee)
      ensures Valid() && this.committee == committee && accepted == [] && spent == None && used == {}
    {
      this.committee := committee;
      weight, certificates, used, spent, accepted := 0, [], {}, None, [];
    }

    /** The digests of all distinct authors so far are reported once, when they reach a quorum. */
    method Append(certificate: Certificate) returns (parents: Option<seq<Digest>>)
      requires Valid()
      modifies this
      ensures Valid() && used == old(used) + {certificate.Origin()}
      ensures accepted == old(accepted) + if certificate.Origin() in old(used) then [] else [certificate.Digest()]
      ensures parents.Some? <==>
                old(spent) == None && certificate.Origin() !in old(used)
                && committee.Weight(used) >= committee.QuorumThreshold()
      ensures parents.Some? ==> parents.value == accepted && spent == Some(used)
      ensures parents == None ==> spent == old(spent)
    {
      hide Committee.Weight, Committee.QuorumThreshold;
      var origin := certificate.Origin();
      if origin in used {
        assert used + {origin} == used;
        return None;
      }
      WeightAdd(committee, used, origin);
      if spent.Some? { SpentQuorum(committee, used, spent.value, origin); }
      used := used + {origin};
      certificates, accepted := certificates + [certificate.Digest()], accepted + [certificate.Digest()];
      weight := weight + committee.Stake(origin);
      if weight >= committee.QuorumThreshold() {
        weight := 0;
        NothingLeft(committee, used);
        spent := Some(used);
        parents := Some(certificates);
        certificates := [];
        return;
      }
      return None;
    }
  }

  /** Bullshark: keeps reporting after the quorum, without resetting the weight. */
  class CertificatesVecAggregator {
    const committee: Committee
    var weight: nat
    var certificates: seq<Certificate>
    var used: set<Author>
    /** First certificate of each author in arrival order, and what has been reported of them. */
    ghost var accepted: seq<Certificate>
    ghost var reported: seq<Certificate>

    ghost predicate Valid()
      reads this
    {
      && weight == committee.Weight(used)
      && accepted == reported + certificates
      && used == (set c | c in accepted :: c.Origin())
      && (forall i, j :: 0 <= i < j < |accepted| ==> accepted[i].Origin() != accepted[j].Origin())
      && (weight < committee.QuorumThreshold() ==> reported == [])
      && (weight >= committee.QuorumThreshold() ==> certificates == [])
    }

    constructor (committee: Committee)
      ensures Valid() && this.committee == committee && accepted == [] && reported == [] && used == {}
    {
      this.committee := committee;
      weight, certificates, used, accepted, reported := 0, [], {}, [], [];
    }

    /** Each accepted certificate is reported once, in order: all of them when the quorum is
        reached, then every later one by itself. */
    method Append(certificate: Certificate) returns (parents: Option<seq<Certificate>>)
      requires Valid()
      modifies this
      ensures Valid()
      ensures accepted == old(accepted) + if certificate.Origin() in old(used) then [] else [certificate]
      ensures parents.Some? <==>
                certificate.Origin() !in old(used) && committee.Weight(used) >= committee.QuorumThreshold()
      ensures reported == old(reported) + if parents.Some? then parents.value else []
      ensures committee.Weight(used) >= committee.QuorumThreshold() ==> reported == accepted
    {
      hide Committee.Weight, Committee.QuorumThreshold;
      var origin := certificate.Origin();
      if origin in used {
        return None;
      }
      WeightAdd(committee, used, origin);
      WeightMonotone(committee, used, used + {origin});
      forall i | 0 <= i < |accepted| ensures accepted[i].Origin() != origin {
        assert accepted[i] in accepted;
      }
      OriginsAppend(accepted, certificate);
      used := used + {origin};
      certificates, accepted := certificates + [certificate], accepted + [certificate];
      weight := weight + committee.Stake(origin);
      if weight >= committee.QuorumThreshold() {
        parents := Some(certificates);
        reported := reported + certificates;
        certificates := [];
        return;
      }
      return None;
    }
  }

  lemma OriginsAppend(cs: seq<Certificate>, c: Certificate)
    ensures (set d | d in cs + [c] :: d.Origin()) == (set d | d in cs :: d.Origin()) + {c.Origin()}
  {
    assert c in cs + [c];
    forall d | d in cs ensures d in cs + [c] {}
  }

  datatype Result<T> = Ok(value: T) | Err(error: Error)

  /** A per-phase vote bucket with a latch. */
  class PhaseBucket {
    const committee: Committee
    const threshold: nat
    var weight: nat
    var votes: seq<Vote>
    var used: set<Author>
    var done: bool

    ghost predicate Valid()
      reads this
    {
      && used == VoteAuthors(votes) && DistinctAuthors(votes) && weight == committee.Weight(used)
      && (done <==> weight >= threshold && votes != [])
    }

    constructor (committee: Committee, threshold: nat)
      ensures Valid() && this.committee == committee && this.threshold == threshold && votes == []
    {
      this.committee, this.threshold := committee, threshold;
      weight, votes, used, done := 0, [], {}, false;
    }

    /** Reports the votes when the threshold is first reached; afterwards stays silent, and
        before that rejects a second vote of one author. */
    method Append(vote: Vote) returns (r: Result<Option<seq<Vote>>>)
      requires Valid()
      modifies this
      ensures Valid() && (old(done) ==> done && r == Ok(None) && votes == old(votes))
      ensures r.Err? <==> !old(done) && vote.author in old(used)
      ensures r.Err? ==> r.error == AuthorityReuse(vote.author) && votes == old(votes) && !done
      ensures !old(done) && r.Ok? ==> votes == old(votes) + [vote] && (r.value.Some? <==> done)
      ensures r.Ok? && r.value.Some? ==> r.value.value == votes && committee.Weight(VoteAuthors(votes)) >= threshold
    {
      hide Committee.Weight, VoteAuthors, DistinctAuthors;
      if done {
        return Ok(None);
      }
      if vote.author in used {
        return Err(AuthorityReuse(vote.author));
      }
      VotesAppend(votes, vote);
      WeightAdd(committee, used, vote.author);
      used := used + {vote.author};
      votes := votes + [vote];
      weight := weight + committee.Stake(vote.author);
      if weight >= threshold {
        done := true;
        return Ok(Some(votes));
      }
      return Ok(None);
    }
  }

  lemma NothingLeft(c: Committee, used: set<Author>)
    ensures c.Weight(used - used) == 0
  {
    assert used - used == {};
  }
}
