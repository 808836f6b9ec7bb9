/** Shortfin records, the three-block leader chain and its uniqueness. */
module Shortfin {
  import opened Quorums
  import opened ConsensusState
  import opened Messages

  /** Every record received, by digest; equivocations stay side by side. */
  type Records = map<Digest, Certificate>

  ghost predicate WellIndexed(records: Records) {
    forall d :: d in records ==> records[d].Digest() == d
  }

  // ---------------------------------------------------------------- inserting records

  /** A certified form replaces a structural one; nothing else replaces anything. */
  function Upgrade(stored: Certificate, c: Certificate): Certificate {
    if stored.votes == [] && c.votes != [] then c else stored
  }

  function InsertRecord(records: Records, c: Certificate): Records {
    records[c.Digest() := if c.Digest() in records then Upgrade(records[c.Digest()], c) else c]
  }

  /** The round index keeps the first branch of each author and upgrades only that one. */
  function InsertIndexed(dag: Dag, c: Certificate): Dag {
    var byAuthor: map<Author, Certificate> := if c.Round() in dag then dag[c.Round()] else map[];
    var entry :=
      if c.Origin() !in byAuthor then c
      else if byAuthor[c.Origin()].Digest() == c.Digest() then Upgrade(byAuthor[c.Origin()], c)
      else byAuthor[c.Origin()];
    dag[c.Round() := byAuthor[c.Origin() := entry]]
  }

  function InsertAll(records: Records, cs: seq<Certificate>): Records {
    if cs == [] then records else InsertRecord(InsertAll(records, cs[..|cs| - 1]), cs[|cs| - 1])
  }

  ghost function CertifiedDigests(records: Records): set<Digest> {
    set d | d in records && records[d].votes != []
  }

  ghost function Delivered(cs: seq<Certificate>): set<Digest> { set c | c in cs :: c.Digest() }

  ghost function DeliveredCertified(cs: seq<Certificate>): set<Digest> {
    set c | c in cs && c.votes != [] :: c.Digest()
  }

  lemma DeliveredAppend(cs: seq<Certificate>, c: Certificate)
    ensures Delivered(cs + [c]) == Delivered(cs) + {c.Digest()}
    ensures DeliveredCertified(cs + [c]) == DeliveredCertified(cs) + if c.votes != [] then {c.Digest()} else {}
  {
    assert c in cs + [c];
    forall d | d in cs ensures d in cs + [c] {}
  }

  /** Whatever the order and however often records arrive, the index holds exactly the digests
      delivered, and counts as certified exactly those delivered certified at least once. */
  lemma {:induction false} InsertAllExact(records: Records, cs: seq<Certificate>)
    requires WellIndexed(records)
    ensures WellIndexed(InsertAll(records, cs))
    ensures InsertAll(records, cs).Keys == records.Keys + Delivered(cs)
    ensures CertifiedDigests(InsertAll(records, cs)) == CertifiedDigests(records) + DeliveredCertified(cs)
  {
    hide WellIndexed, CertifiedDigests, InsertRecord;
    if cs != [] {
      var front, c := cs[..|cs| - 1], cs[|cs| - 1];
      InsertAllExact(records, front);
      assert cs == front + [c];
      DeliveredAppend(front, c);
      InsertExact(InsertAll(records, front), c);
    }
  }

  /** What is stored was delivered, or was there before. */
  lemma {:induction false} InsertAllOrigin(records: Records, cs: seq<Certificate>, d: Digest)
    requires d in InsertAll(records, cs)
    ensures InsertAll(records, cs)[d] in cs || (d in records && InsertAll(records, cs)[d] == records[d])
  {
    hide Upgrade;
    if cs != [] {
      var front, c := cs[..|cs| - 1], cs[|cs| - 1];
      assert cs == front + [c];
      if InsertAll(records, cs)[d] != c { UpgradeOne(InsertAll(records, front), c); InsertAllOrigin(records, front,
          d); }
    }
  }

  lemma UpgradeOne(records: Records, c: Certificate)
    ensures forall d :: d in InsertRecord(records, c) ==>
              InsertRecord(records, c)[d] == c || (d in records && InsertRecord(records, c)[d] == records[d])
  {
  }

  lemma InsertExact(records: Records, c: Certificate)
    requires WellIndexed(records)
    ensures WellIndexed(InsertRecord(records, c))
    ensures InsertRecord(records, c).Keys == records.Keys + {c.Digest()}
    ensures CertifiedDigests(InsertRecord(records, c)) ==
            CertifiedDigests(records) + if c.votes != [] then {c.Digest()} else {}
  {
  }

  // ---------------------------------------------------------------- the round index

  function IndexAll(dag: Dag, cs: seq<Certificate>): Dag {
    if cs == [] then dag else InsertIndexed(IndexAll(dag, cs[..|cs| - 1]), cs[|cs| - 1])
  }

  predicate InSlot(c: Certificate, r: Round, a: Author) { c.Round() == r && c.Origin() == a }

  ghost predicate Occupied(dag: Dag, r: Round, a: Author) { r in dag && a in dag[r] }

  /** The `i`-th certificate is the first of its slot. */
  ghost predicate FirstAt(cs: seq<Certificate>, i: nat, r: Round, a: Author) {
    i < |cs| && InSlot(cs[i], r, a) && forall j :: 0 <= j < i ==> !InSlot(cs[j], r, a)
  }

  /** A certified form of this branch was delivered. */
  ghost predicate CertifiedIn(cs: seq<Certificate>, r: Round, a: Author, d: Digest) {
    exists c :: c in cs && InSlot(c, r, a) && c.Digest() == d && c.votes != []
  }

  lemma CertifiedInAppend(cs: seq<Certificate>, c: Certificate, r: Round, a: Author, d: Digest)
    ensures CertifiedIn(cs + [c], r, a, d) <==>
            CertifiedIn(cs, r, a, d) || (InSlot(c, r, a) && c.Digest() == d && c.votes != [])
  {
    assert c in cs + [c];
    forall x ensures x in cs + [c] <==> x in cs || x == c {}
  }

  /** The round index keeps, per author, the branch it held or else the first one delivered, and
      counts it as certified exactly if a certified form of that branch was seen. */
  lemma {:induction false} IndexAllExact(dag: Dag, cs: seq<Certificate>, r: Round, a: Author)
    ensures var after := IndexAll(dag, cs);
            && (Occupied(after, r, a) <==> Occupied(dag, r, a) || exists c :: c in cs && InSlot(c, r, a))
            && (Occupied(dag, r, a) ==> after[r][a].Digest() == dag[r][a].Digest())
            && (!Occupied(dag, r, a) ==> forall i: nat :: FirstAt(cs, i, r, a) ==>
                after[r][a].Digest() == cs[i].Digest())
            && (Occupied(after, r, a) ==>
                  (after[r][a].votes != [] <==>
                   (Occupied(dag, r, a) && dag[r][a].votes != []) || CertifiedIn(cs, r, a, after[r][a].Digest())))
  {
    if cs != [] {
      var front, c := cs[..|cs| - 1], cs[|cs| - 1];
      assert cs == front + [c] && c in cs;
      IndexAllExact(dag, front, r, a);
      BranchStep(IndexAll(dag, front), c, r, a);
      var after := IndexAll(dag, cs);
      if Occupied(after, r, a) { CertifiedInAppend(front, c, r, a, after[r][a].Digest()); }
      FirstAppend(front, c, r, a);
      if !(exists x :: x in front && InSlot(x, r, a)) && Occupied(after, r, a) {
        assert !CertifiedIn(front, r, a, after[r][a].Digest());
      }
    }
  }

  lemma BranchStep(dag: Dag, c: Certificate, r: Round, a: Author)
    ensures var after := InsertIndexed(dag, c);
            && (Occupied(after, r, a) <==> Occupied(dag, r, a) || InSlot(c, r, a))
            && (Occupied(dag, r, a) ==>
                  && after[r][a].Digest() == dag[r][a].Digest()
                  && (after[r][a].votes != [] <==>
                      dag[r][a].votes != [] || (InSlot(c, r, a) && c.Digest() == dag[r][a].Digest() && c.votes != [])))
            && (!Occupied(dag, r, a) && InSlot(c, r, a) ==> after[r][a] == c)
  {
  }

  lemma FirstAppend(cs: seq<Certificate>, c: Certificate, r: Round, a: Author)
    ensures forall x :: x in cs + [c] <==> x in cs || x == c
    ensures forall i: nat :: FirstAt(cs + [c], i, r, a) ==>
              if i < |cs| then FirstAt(cs, i, r, a) else i == |cs| && !exists x :: x in cs && InSlot(x, r, a)
    ensures (exists x :: x in cs && InSlot(x, r, a)) ==>
              forall i: nat :: FirstAt(cs + [c], i, r, a) ==> i < |cs| && cs[i] in cs
  {
    forall i: nat | FirstAt(cs + [c], i, r, a)
      ensures if i < |cs| then FirstAt(cs, i, r, a) else i == |cs| && !exists x :: x in cs && InSlot(x, r, a)
    {
      if i < |cs| {
        forall j | 0 <= j < i ensures !InSlot(cs[j], r, a) { assert (cs + [c])[j] == cs[j]; }
      } else {
        forall x | x in cs ensures !InSlot(x, r, a) {
          var j :| 0 <= j < |cs| && cs[j] == x;
          assert (cs + [c])[j] == x;
        }
      }
    }
  }

  // ---------------------------------------------------------------- the leader chain

  /** The child's embedded QC certifies the parent, with votes cast before the commit round. */
  predicate QcLinks(child: Certificate, parent: Certificate, commitRound: Round) {
    match child.header.qc
    case None => false
    case Some(qc) =>
      && qc.target == parent.Digest() && qc.round == parent.Round() && qc.round < commitRound
      && (forall i :: 0 <= i < |qc.votes| ==> qc.votes[i].voterRound < commitRound)
  }

  ghost predicate RecordOf(records: Records, c: Certificate, author: Author, round: Round) {
    c.Digest() in records && records[c.Digest()] == c && c.Origin() == author && c.Round() == round
  }

  /** The leader's blocks of three consecutive rounds, each certified inside the next. */
  ghost predicate ChainIn(records: Records, leader: Author, commitRound: Round, b3: Certificate, b2: Certificate,
                          b1: Certificate)
    requires commitRound >= 4
  {
    && RecordOf(records, b3, leader, commitRound - 3)
    && RecordOf(records, b2, leader, commitRound - 2)
    && RecordOf(records, b1, leader, commitRound - 1)
    && QcLinks(b2, b3, commitRound) && QcLinks(b1, b2, commitRound)
  }

  /** The header checks of the primary: an embedded QC is a quorum of signed votes. */
  ghost predicate VerifiedHeader(c: Committee, signed: set<Vote>, h: Header) {
    QcSound(c, h) && (h.qc.Some? ==> forall v :: v in h.qc.value.votes ==> v in signed)
  }

  ghost predicate Verified(c: Committee, signed: set<Vote>, records: Records) {
    forall d :: d in records ==> VerifiedHeader(c, signed, records[d].header)
  }

  /** The chain itself, whatever else has been received. */
  ghost predicate ChainOf(leader: Author, commitRound: Round, b3: Certificate, b2: Certificate, b1: Certificate) {
    && b3.Origin() == b2.Origin() == b1.Origin() == leader
    && b3.Round() + 3 == b2.Round() + 2 == b1.Round() + 1 == commitRound
    && QcLinks(b2, b3, commitRound) && QcLinks(b1, b2, commitRound)
  }

  /** One leader and commit round have one certified b3 and one certified b2. */
  lemma ChainsCoincide(c: Committee, signed: set<Vote>, byz: set<Author>, leader: Author, commitRound: Round,
                       b3: Certificate, b2: Certificate, b1: Certificate,
                       b3': Certificate, b2': Certificate, b1': Certificate)
    requires OneVotePerSlot(c, signed, byz)
    requires ChainOf(leader, commitRound, b3, b2, b1) && ChainOf(leader, commitRound, b3', b2', b1')
    requires VerifiedHeader(c, signed, b2.header) && VerifiedHeader(c, signed, b1.header)
    requires VerifiedHeader(c, signed, b2'.header) && VerifiedHeader(c, signed, b1'.header)
    ensures b3.Digest() == b3'.Digest() && b2.Digest() == b2'.Digest()
  {
    hide OneVotePerSlot, QuorumFor;
    CertifiedByUnique(c, signed, byz, b2.header, b2'.header);
    CertifiedByUnique(c, signed, byz, b1.header, b1'.header);
  }

  /** Whatever two nodes have received, the leader of a commit round has one certified b3 and one
      certified b2. */
  lemma LeaderChainUnique(c: Committee, signed: set<Vote>, byz: set<Author>, leader: Author, commitRound: Round,
                          r: Records, b3: Certificate, b2: Certificate, b1: Certificate,
                          r': Records, b3': Certificate, b2': Certificate, b1': Certificate)
    requires commitRound >= 4 && OneVotePerSlot(c, signed, byz)
    requires Verified(c, signed, r) && Verified(c, signed, r')
    requires ChainIn(r, leader, commitRound, b3, b2, b1) && ChainIn(r', leader, commitRound, b3', b2', b1')
    ensures b3.Digest() == b3'.Digest() && b2.Digest() == b2'.Digest()
  {
    hide OneVotePerSlot, QcSound, QcLinks;
    ChainsCoincide(c, signed, byz, leader, commitRound, b3, b2, b1, b3', b2', b1');
  }

  lemma CertifiedByUnique(c: Committee, signed: set<Vote>, byz: set<Author>, h: Header, h': Header)
    requires OneVotePerSlot(c, signed, byz) && QcSound(c, h) && QcSound(c, h')
    requires h.qc.Some? && h'.qc.Some? && h.author == h'.author && h.round == h'.round
    requires forall v :: v in h.qc.value.votes ==> v in signed
    requires forall v :: v in h'.qc.value.votes ==> v in signed
    ensures h.qc.value.target == h'.qc.value.target
  {
    hide OneVotePerSlot, QuorumFor;
    QuorumsCertifyOne(c, signed, byz, h.qc.value.votes, h'.qc.value.votes,
                      h.qc.value.target, h'.qc.value.target, h.qc.value.round, h.author, true);
  }

  /** A chain, on the header fields: three blocks of the leader in the three rounds before the boundary,
      b2 carrying a QC for b3 and b1 a QC for b2, all votes of both cast before the boundary round. */
  lemma ChainMeans(leader: Author, commitRound: Round, b3: Certificate, b2: Certificate, b1: Certificate)
    requires commitRound >= 4
    ensures ChainOf(leader, commitRound, b3, b2, b1) <==>
            && b3.header.author == leader && b2.header.author == leader && b1.header.author == leader
            && b3.header.round == commitRound - 3 && b2.header.round == commitRound - 2
            && b1.header.round == commitRound - 1
            && b2.header.qc.Some? && b2.header.qc.value.target == b3.header.id
            && b2.header.qc.value.round == commitRound - 3
            && (forall v :: v in b2.header.qc.value.votes ==> v.voterRound < commitRound)
            && b1.header.qc.Some? && b1.header.qc.value.target == b2.header.id
            && b1.header.qc.value.round == commitRound - 2
            && (forall v :: v in b1.header.qc.value.votes ==> v.voterRound < commitRound)
  {
    LinksMeans(b2, b3, commitRound);
    LinksMeans(b1, b2, commitRound);
  }

  lemma LinksMeans(child: Certificate, parent: Certificate, commitRound: Round)
    ensures QcLinks(child, parent, commitRound) <==>
            && child.header.qc.Some? && child.header.qc.value.target == parent.header.id
            && child.header.qc.value.round == parent.header.round && parent.header.round < commitRound
            && (forall v :: v in child.header.qc.value.votes ==> v.voterRound < commitRound)
  {
    if child.header.qc.Some? && forall v :: v in child.header.qc.value.votes ==> v.voterRound < commitRound {
      var votes := child.header.qc.value.votes;
      forall i | 0 <= i < |votes| ensures votes[i].voterRound < commitRound { assert votes[i] in votes; }
    }
  }

  lemma ChainStoredOf(records: Records, leader: Author, commitRound: Round, b3: Certificate, b2: Certificate,
                      b1: Certificate)
    requires commitRound >= 4
    ensures ChainIn(records, leader, commitRound, b3, b2, b1) <==>
            && ChainOf(leader, commitRound, b3, b2, b1)
            && b3.Digest() in records && records[b3.Digest()] == b3
            && b2.Digest() in records && records[b2.Digest()] == b2
            && b1.Digest() in records && records[b1.Digest()] == b1
  {
    hide QcLinks;
  }

  datatype ChainError = LeaderUnavailable | MissingB2 | MissingB1 | QcChainInvalid

  datatype ChainResult = Chain(b3: Certificate, b2: Certificate, b1: Certificate) | NoChain(error: ChainError)

  function Candidates(records: Records, author: Author, round: Round): set<Digest> {
    set d | d in records && records[d].Origin() == author && records[d].Round() == round
  }

  /** The first block, in digest order, whose embedded QC certifies `parent`. */
  method FindCarrier(records: Records, candidates: set<Digest>, parent: Certificate, commitRound: Round)
    returns (c: Option<Certificate>)
    requires candidates <= records.Keys
    ensures c.Some? ==> exists d :: d in candidates && records[d] == c.value && QcLinks(c.value, parent, commitRound)
    ensures c == None ==> forall d :: d in candidates ==> !QcLinks(records[d], parent, commitRound)
  {
    var rest := candidates;
    while rest != {}
      invariant rest <= candidates
      invariant forall d :: d in candidates && d !in rest ==> !QcLinks(records[d], parent, commitRound)
      decreases rest
    {
      var d := Least(rest);
      if QcLinks(records[d], parent, commitRound) {
        return Some(records[d]);
      }
      rest := rest - {d};
    }
    return None;
  }

  /** Some b2 and b1 complete the chain above this b3. */
  ghost predicate Completes(records: Records, leader: Author, commitRound: Round, b3: Certificate)
    requires commitRound >= 4
  {
    exists b2, b1 :: ChainIn(records, leader, commitRound, b3, b2, b1)
  }

  /** Complete the chain above one candidate b3. */
  method CompleteChain(records: Records, leader: Author, commitRound: Round, b3: Certificate)
    returns (r: Option<(Certificate, Certificate)>)
    requires commitRound >= 4 && WellIndexed(records) && RecordOf(records, b3, leader, commitRound - 3)
    ensures r.Some? ==> ChainIn(records, leader, commitRound, b3, r.value.0, r.value.1)
    ensures r == None ==> !Completes(records, leader, commitRound, b3)
  {
    hide QcLinks;
    var b2s := Candidates(records, leader, commitRound - 2);
    var b1s := Candidates(records, leader, commitRound - 1);
    var rest := b2s;
    while rest != {}
      invariant rest <= b2s
      invariant forall b2, b1 :: ChainIn(records, leader, commitRound, b3, b2, b1) ==> b2.Digest() in rest
      decreases rest
    {
      var d := Least(rest);
      var b2 := records[d];
      if QcLinks(b2, b3, commitRound) {
        var b1 := FindCarrier(records, b1s, b2, commitRound);
        if b1.Some? {
          return Some((b2, b1.value));
        }
      }
      rest := rest - {d};
    }
    return None;
  }

  lemma ChainCandidates(records: Records, leader: Author, commitRound: Round)
    requires commitRound >= 4
    ensures forall b3, b2, b1 :: ChainIn(records, leader, commitRound, b3, b2, b1) ==>
              && b3.Digest() in Candidates(records, leader, commitRound - 3)
              && b2.Digest() in Candidates(records, leader, commitRound - 2)
              && b1.Digest() in Candidates(records, leader, commitRound - 1)
  {
    hide QcLinks;
  }

  /** The child carries a QC for the parent, and all its votes were cast before the commit round. */
  ghost predicate Dated(child: Certificate, parent: Certificate, commitRound: Round) {
    && child.header.qc.Some? && child.header.qc.value.target == parent.header.id
    && child.header.qc.value.round == parent.header.round && parent.header.round < commitRound
    && (forall v :: v in child.header.qc.value.votes ==> v.voterRound < commitRound)
  }

  /** The commit rule's chain search.  It fails only if no chain exists. */
  method VerifyLeaderChain(records: Records, leader: Option<Author>, commitRound: Round) returns (r: ChainResult)
    requires commitRound >= 4 && WellIndexed(records)
    ensures r.Chain? ==> leader.Some? && ChainIn(records, leader.value, commitRound, r.b3, r.b2, r.b1)
    ensures r.NoChain? && leader.Some? ==>
              forall b3, b2, b1 :: !ChainIn(records, leader.value, commitRound, b3, b2, b1)
    ensures r.Chain? ==> Dated(r.b2, r.b3, commitRound) && Dated(r.b1, r.b2, commitRound)
    ensures leader.Some? ==>
              forall b3, b2, b1 ::
                (&& RecordOf(records, b3, leader.value, commitRound - 3)
                 && RecordOf(records, b2, leader.value, commitRound - 2)
                 && RecordOf(records, b1, leader.value, commitRound - 1)
                 && Dated(b2, b3, commitRound) && Dated(b1, b2, commitRound)) ==> r.Chain?
    ensures r == NoChain(LeaderUnavailable) <==>
              leader == None || Candidates(records, leader.value, commitRound - 3) == {}
    ensures r == NoChain(MissingB2) <==>
              leader.Some? && Candidates(records, leader.value, commitRound - 3) != {}
              && Candidates(records, leader.value, commitRound - 2) == {}
    ensures r == NoChain(MissingB1) <==>
              leader.Some? && Candidates(records, leader.value, commitRound - 3) != {}
              && Candidates(records, leader.value, commitRound - 2) != {}
              && Candidates(records, leader.value, commitRound - 1) == {}
  {
    hide QcLinks;
    forall child, parent ensures QcLinks(child, parent, commitRound) <==> Dated(child, parent, commitRound) {
      LinksMeans(child, parent, commitRound);
    }
    if leader == None {
      return NoChain(LeaderUnavailable);
    }
    ChainCandidates(records, leader.value, commitRound);
    var b3s := Candidates(records, leader.value, commitRound - 3);
    if b3s == {} {
      return NoChain(LeaderUnavailable);
    }
    if Candidates(records, leader.value, commitRound - 2) == {} {
      return NoChain(MissingB2);
    }
    if Candidates(records, leader.value, commitRound - 1) == {} {
      return NoChain(MissingB1);
    }
    var rest := b3s;
    while rest != {}
      invariant rest <= b3s
      invariant forall b3, b2, b1 :: ChainIn(records, leader.value, commitRound, b3, b2, b1) ==> b3.Digest() in rest
      decreases rest
    {
      var d := Least(rest);
      var tail := CompleteChain(records, leader.value, commitRound, records[d]);
      if tail.Some? {
        return Chain(records[d], tail.value.0, tail.value.1);
      }
      rest := rest - {d};
    }
    return NoChain(QcChainInvalid);
  }
}
