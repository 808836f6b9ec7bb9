/** The Shortfin commit loop over any input stream: nothing is output twice, committed rounds
    only grow, and with certified targets delivered first the boundaries strictly increase. */
module ShortfinRun {
  import opened Quorums
  import opened ConsensusState
  import opened Messages
  import opened Shortfin
  import opened ShortfinWave

  const WAVE: Round := 4

  // ---------------------------------------------------------------- what a chain always outputs

  /** The certified forms of b3 and b2 have arrived. */
  ghost predicate ChainCertified(b3: Certificate, b2: Certificate) { b3.votes != [] && b2.votes != [] }

  /** A successful boundary outputs b3 and b2 once their certified forms are present. */
  lemma ChainIsOutput(records: Records, last: map<Author, Round>, commitRound: Round, threshold: nat, leader: Author,
                      b3: Certificate, b2: Certificate, b1: Certificate, r: set<Digest>)
    requires commitRound >= 4 && WellIndexed(records) && ChainIn(records, leader, commitRound, b3, b2, b1)
    requires leader in last ==> last[leader] < commitRound - 3
    requires WaveReach(records, last, commitRound, threshold, [b3, b2, b1], r)
    requires ChainCertified(b3, b2)
    ensures InWave(records, last, commitRound, threshold, r, b3.Digest())
    ensures InWave(records, last, commitRound, threshold, r, b2.Digest())
  {
    hide Anchored;
    var index := UncommittedBelow(records, last, commitRound);
    var chain := [b3, b2, b1];
    var seeds :| FrontierOf(records, commitRound, threshold, chain, seeds)
                 && LeastReach(records, seeds, index, last, Floor(seeds), r);
    assert b3 in chain && b2 in chain && b1 in chain;
    FloorBelow(seeds, b3);
    FloorBelow(seeds, b2);
    FloorBelow(seeds, b1);
    assert b3.Digest() in r && b2.Digest() in r && b1.Digest() in r;
    assert ExposedBy(records[b2.Digest()], last, commitRound, b2.Digest() in r, b3.Digest());
    assert ExposedBy(records[b1.Digest()], last, commitRound, b1.Digest() in r, b2.Digest());
  }

  lemma FloorBelow(seeds: seq<Certificate>, c: Certificate)
    requires c in seeds
    ensures Floor(seeds) <= c.Round()
  {
  }

  // ---------------------------------------------------------------- what has been output

  /** Every new output of an author lies in a higher round than all its earlier output. */
  ghost predicate LaterRounds(before: seq<Certificate>, batch: seq<Certificate>) {
    forall x, y :: x in before && y in batch && x.Origin() == y.Origin() ==> x.Round() < y.Round()
  }

  lemma WaveIsNew(records: Records, last: map<Author, Round>, commitRound: Round, threshold: nat, r: set<Digest>,
                  before: seq<Certificate>, batch: seq<Certificate>)
    requires Covered(last, before) && DistinctDigests(before) && WellIndexed(records)
    requires WaveOutput(records, last, commitRound, threshold, r, batch)
    requires forall c :: c in before && c.Digest() in records ==>
               records[c.Digest()].Origin() == c.Origin() && records[c.Digest()].Round() == c.Round()
    ensures LaterRounds(before, batch) && DistinctDigests(before + batch)
    ensures forall c :: c in batch ==> c.Digest() in records && records[c.Digest()] == c && c.Round() < commitRound
  {
    hide Exposed, Anchored;
    forall i, j | 0 <= i < j < |before + batch| ensures (before + batch)[i].Digest() != (before + batch)[j].Digest() {
      var x, y := (before + batch)[i], (before + batch)[j];
      if i < |before| && j >= |before| {
        assert x in before && y in batch;
      } else if i >= |before| {
        assert x == batch[i - |before|] && y == batch[j - |before|];
      }
    }
  }

  // ---------------------------------------------------------------- delivery discipline

  /** The embedded QC of `c`, if it is about an uncommitted round, has its certified target present. */
  ghost predicate TargetReady(records: Records, last: Round, c: Certificate) {
    c.header.qc.Some? && c.header.qc.value.round > last ==>
      var qc := c.header.qc.value;
      qc.target in records && records[qc.target].votes != [] && records[qc.target].Round() == qc.round
  }

  ghost predicate TargetsReady(records: Records, last: Round) {
    forall d :: d in records ==> TargetReady(records, last, records[d])
  }

  /** Digests identify headers: `headers` holds every header that passed the primary's checks. */
  ghost predicate Hashes(headers: map<Digest, Header>, c: Certificate) {
    c.Digest() in headers && headers[c.Digest()] == c.header
  }

  ghost predicate Hashed(headers: map<Digest, Header>, records: Records) {
    forall d :: d in records ==> d in headers && records[d].header == headers[d]
  }

  lemma HashedInsert(headers: map<Digest, Header>, records: Records, c: Certificate)
    requires Hashed(headers, records) && Hashes(headers, c)
    ensures Hashed(headers, InsertRecord(records, c))
  {
  }

  lemma TargetsKeptByInsert(headers: map<Digest, Header>, records: Records, last: Round, c: Certificate)
    requires WellIndexed(records) && Hashed(headers, records) && Hashes(headers, c)
    requires TargetsReady(records, last) && TargetReady(records, last, c)
    ensures TargetsReady(InsertRecord(records, c), last)
  {
  }

  function RetainFrom(records: Records, floor: Round): Records {
    map d | d in records && records[d].Round() >= floor :: records[d]
  }

  lemma TargetsKeptByRetain(records: Records, last: Round, last': Round, floor: Round)
    requires TargetsReady(records, last) && last <= last' && floor <= last'
    ensures TargetsReady(RetainFrom(records, floor), last')
  {
  }

  /** A committed boundary: its leader, the leader's chain and the wave it output. */
  datatype Boundary = Boundary(round: Round, leader: Author, b3: Certificate, b2: Certificate, b1: Certificate,
                               wave: seq<Certificate>)

  ghost predicate Increasing(bs: seq<Boundary>) {
    forall i, j :: 0 <= i < j < |bs| ==> bs[i].round < bs[j].round
  }

  /** Everything output, wave by wave. */
  ghost function Waves(bs: seq<Boundary>): seq<Certificate> {
    if bs == [] then [] else Waves(bs[..|bs| - 1]) + bs[|bs| - 1].wave
  }

  lemma WavesAppend(bs: seq<Boundary>, b: Boundary)
    ensures Waves(bs + [b]) == Waves(bs) + b.wave
  {
    assert (bs + [b])[..|bs|] == bs;
  }

  /** Every committed boundary has a leader chain of known headers. */
  ghost predicate Chained(headers: map<Digest, Header>, bs: seq<Boundary>) {
    forall i :: 0 <= i < |bs| ==>
      var b := bs[i];
      && ChainOf(b.leader, b.round, b.b3, b.b2, b.b1)
      && Hashes(headers, b.b3) && Hashes(headers, b.b2) && Hashes(headers, b.b1)
  }

  /** The wave holds the leader's b3 and b2. */
  ghost predicate OutputsChain(b: Boundary) { b.b3 in b.wave && b.b2 in b.wave }

  /** Boundaries strictly increase, each outputs its leader's b3 and b2, and the last is covered by
      the last committed round. */
  ghost predicate Progressing(records: Records, last: Round, bs: seq<Boundary>) {
    && TargetsReady(records, last) && Increasing(bs)
    && (forall i :: 0 <= i < |bs| ==> OutputsChain(bs[i]))
    && (bs != [] ==> bs[|bs| - 1].round <= last + 2)
  }

  lemma InsertIndexedHas(dag: Dag, c: Certificate)
    ensures c.Round() in InsertIndexed(dag, c)
  {
  }

  lemma InsertIndexedKeyed(dag: Dag, c: Certificate)
    requires WellKeyed(dag)
    ensures WellKeyed(InsertIndexed(dag, c))
  {
  }

  lemma CleanedKeyed(before: Dag, after: Dag, last: map<Author, Round>, gcDepth: nat, round: Round)
    requires WellKeyed(before) && (after == before || Cleaned(before, after, last, gcDepth, round))
    ensures WellKeyed(after)
  {
    forall r, a | r in after && a in after[r] ensures after[r][a].Round() == r && after[r][a].Origin() == a {
      assert Holds(after, r, a, after[r][a]);
    }
  }

  /** The last committed round is the maximum over the authors. */
  ghost predicate IsMaximum(last: map<Author, Round>, round: Round) {
    if last == map[] then round == 0 else round == MaxValue(last)
  }

  /** Everything the boundary gate asks before the chain search. */
  ghost predicate Gate(c: Committee, name: Author, dag: Dag, processed: set<Round>, last: Round, round: Round) {
    && round >= WAVE && round % WAVE == 0 && round !in processed
    && round in dag && name in dag[round] && HasQuorum(c, dag, round)
    && round - 3 > last
  }

  /** Genesis certificates: round 0, one per author, no QC, distinct digests. */
  ghost predicate GenesisFits(headers: map<Digest, Header>, genesis: map<Author, Certificate>) {
    && (forall a :: a in genesis ==> GenesisFitsAt(headers, a, genesis[a]))
    && (forall a, b :: a in genesis && b in genesis && genesis[a].Digest() == genesis[b].Digest() ==> a == b)
  }

  ghost predicate GenesisFitsAt(headers: map<Digest, Header>, a: Author, c: Certificate) {
    c.Round() == 0 && c.Origin() == a && Hashes(headers, c) && c.header.qc == None
  }

  function GenesisRecords(genesis: map<Author, Certificate>): Records
    requires forall a, b :: a in genesis && b in genesis && genesis[a].Digest() == genesis[b].Digest() ==> a == b
  {
    map a | a in genesis :: genesis[a].Digest() := genesis[a]
  }

  lemma GenesisIndexed(headers: map<Digest, Header>, genesis: map<Author, Certificate>)
    requires GenesisFits(headers, genesis)
    ensures var records := GenesisRecords(genesis);
            WellIndexed(records) && Hashed(headers, records) && Progressing(records, 0, [])
    ensures WellKeyed(map[0 := genesis]) && IsMaximum(RoundsOf(genesis), 0)
  {
    var records := GenesisRecords(genesis);
    forall d | d in records
      ensures records[d].Digest() == d && d in headers && records[d].header == headers[d]
      ensures records[d].header.qc == None
    {
      var a :| a in genesis && genesis[a].Digest() == d && records[d] == genesis[a];
      assert GenesisFitsAt(headers, a, genesis[a]);
    }
    GenesisRounds(headers, genesis);
  }

  lemma GenesisRounds(headers: map<Digest, Header>, genesis: map<Author, Certificate>)
    requires GenesisFits(headers, genesis)
    ensures WellKeyed(map[0 := genesis]) && IsMaximum(RoundsOf(genesis), 0)
  {
    var rounds := RoundsOf(genesis);
    if rounds != map[] {
      var a :| a in rounds && rounds[a] == MaxValue(rounds);
    }
  }

  /** Boundaries too old to be retried are forgotten. */
  function KeptBoundaries(processed: set<Round>, last: Round, gcDepth: nat): (kept: set<Round>)
    ensures forall r :: r in kept <==> r in processed && r + gcDepth >= last
  {
    set r | r in processed && r >= (if last < gcDepth then 0 else last - gcDepth)
  }

  ghost predicate NoChainFor(records: Records, round: Round, leader: Option<Author>) {
    round >= WAVE && leader.Some? ==> forall b3, b2, b1 :: !ChainIn(records, leader.value, round, b3, b2, b1)
  }

  class Node {
    const committee: Committee
    const name: Author
    const gcDepth: nat
    /** The leader of a commit round, if the boundary records reveal it. */
    const elect: (Round, map<Author, Certificate>) -> Option<Author>
    ghost const headers: map<Digest, Header>
    const state: State
    var records: Records
    var processed: set<Round>
    ghost var output: seq<Certificate>
    ghost var boundaries: seq<Boundary>
    /** Every record so far came after the certified form of its QC target. */
    ghost var disciplined: bool

    ghost predicate Indexed()
      reads this, state
    {
      && WellIndexed(records) && Hashed(headers, records) && WellKeyed(state.dag)
      && IsMaximum(state.lastCommitted, state.lastCommittedRound)
    }

    ghost predicate Valid()
      reads this, state
    {
      && Indexed()
      && Covered(state.lastCommitted, output) && DistinctDigests(output)
      && (forall c :: c in output ==> Hashes(headers, c))
      && output == Waves(boundaries) && Chained(headers, boundaries)
      && (disciplined ==> Progressing(records, state.lastCommittedRound, boundaries))
    }

    constructor (committee: Committee, name: Author, gcDepth: nat,
                 elect: (Round, map<Author, Certificate>) -> Option<Author>,
                 genesis: map<Author, Certificate>, ghost headers: map<Digest, Header>)
      requires GenesisFits(headers, genesis)
      ensures Valid() && fresh(state) && output == [] && boundaries == [] && disciplined
      ensures this.headers == headers && this.committee == committee
    {
      hide WellIndexed, Hashed, WellKeyed, IsMaximum, Progressing, GenesisRecords, RoundsOf;
      this.committee, this.name, this.gcDepth, this.elect, this.headers := committee, name, gcDepth, elect, headers;
      this.state := new State(genesis);
      records := GenesisRecords(genesis);
      processed, output, boundaries, disciplined := {}, [], [], true;
      GenesisIndexed(headers, genesis);
      new;
    }

    /** The boundary gate. */
    method GateOpen(round: Round) returns (b: bool)
      requires WellKeyed(state.dag)
      ensures b <==> Gate(committee, name, state.dag, processed, state.lastCommittedRound, round)
      ensures b <==>
                && round >= 4 && round % 4 == 0 && round !in processed && round - 3 > state.lastCommittedRound
                && round in state.dag && name in state.dag[round]
                && committee.Weight(state.dag[round].Keys) >= 2 * committee.Total() / 3 + 1
    {
      if round < WAVE || round % WAVE != 0 || round in processed {
        return false;
      }
      if round !in state.dag || name !in state.dag[round] {
        return false;
      }
      var quorum := RoundHasQuorum(committee, state.dag, round);
      return quorum && round - 3 > state.lastCommittedRound;
    }

    ghost function Here(): NodeState
      reads this, state
    {
      NodeState(state.dag, state.lastCommitted, state.lastCommittedRound, records, processed, boundaries)
    }

    /** Is a boundary committed when this record has been stored? */
    ghost predicate Opens(s: NodeState, round: Round) {
      && Gate(committee, name, s.dag, s.processed, s.round, round)
      && !NoChainFor(s.records, round, elect(round, s.dag[round]))
    }

    /** Committing boundary `b` in state `s` leaves state `t`. */
    ghost predicate CommitsBoundary(s: NodeState, round: Round, batch: seq<Certificate>, t: NodeState)
      requires round in s.dag
    {
      exists b: Boundary ::
        && b.round == round && b.wave == batch && elect(round, s.dag[round]) == Some(b.leader)
        && CommittedWave(s.records, s.last, committee.ValidityThreshold(), b)
        && Committed(gcDepth, s.(processed := s.processed + {round}), b, t)
    }

    /** What delivering a record does, in every case: a stale one is dropped, any other is stored, and
        a boundary is committed exactly if the gate is open and the elected leader has a chain. */
    ghost predicate Delivers(s: NodeState, c: Certificate, batch: seq<Certificate>, t: NodeState) {
      var kept := s.(processed := KeptBoundaries(s.processed, s.round, gcDepth));
      if Stale(s.last, c) then batch == [] && t == kept
      else
        var stored := WithRecord(kept, c);
        if Opens(stored, c.Round()) then c.Round() in stored.dag && CommitsBoundary(stored, c.Round(), batch, t)
        else batch == [] && t == stored
    }

    /** Delivering a whole stream; each record has its own, possibly empty, batch. */
    ghost predicate DeliversAll(s: NodeState, stream: seq<Certificate>, waves: seq<seq<Certificate>>, t: NodeState)
      decreases |stream|
    {
      && |waves| == |stream|
      && if stream == [] then s == t
         else
           var n := |stream| - 1;
           exists m :: DeliversAll(s, stream[..n], waves[..n], m) && Delivers(m, stream[n], waves[n], t)
    }

    lemma DeliversNext(s: NodeState, stream: seq<Certificate>, waves: seq<seq<Certificate>>, m: NodeState,
                       c: Certificate,
                       batch: seq<Certificate>, t: NodeState)
      requires DeliversAll(s, stream, waves, m) && Delivers(m, c, batch, t)
      ensures DeliversAll(s, stream + [c], waves + [batch], t)
    {
      hide Node.Delivers;
      assert (stream + [c])[..|stream|] == stream && (waves + [batch])[..|waves|] == waves;
    }

    lemma DeliversNothing(s: NodeState, stream: seq<Certificate>)
      requires stream == []
      ensures DeliversAll(s, stream, [], s)
    {
    }

    /** What matters of a delivered certificate stays: a certified record above the last committed
        round is kept certified. */
    lemma DeliversKeeps(s: NodeState, c: Certificate, batch: seq<Certificate>, t: NodeState)
      requires Delivers(s, c, batch, t) && Hashed(headers, s.records) && Hashes(headers, c)
      requires IsMaximum(s.last, s.round) && s.round <= t.round
      ensures Keeps(s.records, t.records, t.round) && Present(t.records, t.round, c)
    {
      hide Gate, NoChainFor, CommittedWave, InsertIndexed, KeptBoundaries;
      if !Stale(s.last, c) { InsertKeeps(headers, s.records, t.round, c); }
    }

    /** Handle one record. */
    method Deliver(certificate: Certificate) returns (batch: seq<Certificate>)
      requires Valid() && Hashes(headers, certificate)
      modifies this`records, this`processed, this`output, this`boundaries, this`disciplined, state
      ensures Valid()
      ensures output == old(output) + batch && LaterRounds(old(output), batch)
      ensures state.lastCommittedRound >= old(state.lastCommittedRound)
      ensures disciplined == (old(disciplined) &&
                (Stale(old(state.lastCommitted), certificate)
                 || TargetReady(old(records), old(state.lastCommittedRound), certificate)))
      ensures Delivers(old(Here()), certificate, batch, Here())
      ensures |boundaries| <= |old(boundaries)| + 1
      ensures |boundaries| > |old(boundaries)| ==>
                && boundaries[|old(boundaries)|].wave == batch
                && CommittedWave(InsertRecord(old(records), certificate), old(state.lastCommitted),
                                 (committee.Total() + 2) / 3, boundaries[|old(boundaries)|])
    {
      hide WellIndexed, Hashed, WellKeyed, Covered, DistinctDigests, Progressing, WaveOutput, LaterRounds;
      hide TargetReady, HasQuorum;
      hide IsMaximum, Stale, Node.CommitsBoundary, InsertRecord, InsertIndexed, NoChainFor, Chained, Waves, Gate;
      hide KeptBoundaries;
      batch := [];
      Nothing(output);
      processed := KeptBoundaries(processed, state.lastCommittedRound, gcDepth);
      if Stale(state.lastCommitted, certificate) {
        return;
      }
      Store(certificate);
      InsertIndexedHas(old(state.dag), certificate);
      var open := GateOpen(certificate.Round());
      if !open {
        return;
      }
      batch := CommitBoundary(certificate.Round());
    }

    /** One turn of the main loop. */
    method DeliverNext(certificate: Certificate) returns (batch: seq<Certificate>)
      requires Valid() && Hashes(headers, certificate)
      modifies this`records, this`processed, this`output, this`boundaries, this`disciplined, state
      ensures Valid()
      ensures output == old(output) + batch && LaterRounds(old(output), batch)
      ensures state.lastCommittedRound >= old(state.lastCommittedRound)
      ensures Delivers(old(Here()), certificate, batch, Here())
      ensures Keeps(old(records), records, state.lastCommittedRound)
      ensures Present(records, state.lastCommittedRound, certificate)
      ensures old(disciplined) && TargetReady(old(records), old(state.lastCommittedRound), certificate) ==> disciplined
    {
      hide WellIndexed, WellKeyed, Covered, DistinctDigests, Progressing, LaterRounds, TargetReady, Keeps, Present;
      hide IsMaximum, Stale, Node.Delivers, Chained, Waves, Hashed, Hashes;
      ghost var before := Here();
      batch := Deliver(certificate);
      DeliversKeeps(before, certificate, batch, Here());
    }

    /** Any input stream: its records are delivered one by one, the waves repeat no digest, each
        author's rounds grow from wave to wave, and if every carrier comes after the certified form
        of its QC target then the committed boundaries strictly increase and each outputs its
        leader's b3 and b2. */
    method Run(stream: seq<Certificate>) returns (waves: seq<seq<Certificate>>)
      requires Valid() && forall c :: c in stream ==> Hashes(headers, c)
      modifies this`records, this`processed, this`output, this`boundaries, this`disciplined, state
      ensures Valid() && DistinctDigests(output)
      ensures DeliversAll(old(Here()), stream, waves, Here())
      ensures forall i, j :: 0 <= i < j < |waves| ==> LaterRounds(waves[i], waves[j])
      ensures forall i, c :: 0 <= i < |waves| && c in waves[i] ==> c in output
      ensures forall c :: c in output ==> c in old(output) || exists i :: 0 <= i < |waves| && c in waves[i]
      ensures output == Waves(boundaries) && Chained(headers, boundaries)
      ensures old(disciplined) && TargetsFirst(old(records), stream) ==> disciplined
      ensures old(disciplined) && TargetsFirst(old(records), stream) ==>
                Increasing(boundaries) && forall i :: 0 <= i < |boundaries| ==> OutputsChain(boundaries[i])
    {
      hide Node.Valid, Node.DeliversAll, Node.Delivers, DistinctDigests, LaterRounds, TargetReady, Keeps, Present;
      hide Hashes;
      hide TargetBefore;
      ghost var start := Here();
      waves := [];
      DeliversNothing(start, stream[..0]);
      KeepsSame(records, state.lastCommittedRound);
      var n := 0;
      while n < |stream|
        invariant 0 <= n <= |stream| && Valid() && |waves| == n
        invariant DeliversAll(start, stream[..n], waves, Here())
        invariant Spread(waves, old(output), output)
        invariant Keeps(start.records, records, state.lastCommittedRound)
        invariant forall c :: c in stream[..n] ==> Present(records, state.lastCommittedRound, c)
        invariant old(disciplined) && TargetsFirst(start.records, stream) ==> disciplined
      {
        ghost var before, beforeOutput, middle, last := Here(), output, records, state.lastCommittedRound;
        assert stream[n] in stream;
        if TargetsFirst(start.records, stream) { TargetIsReady(start.records, stream[..n], records, last, stream[n]); }
        var batch := DeliverNext(stream[n]);
        DeliversNext(start, stream[..n], waves, before, stream[n], batch, Here());
        SpreadNext(waves, old(output), beforeOutput, batch);
        forall c | c in stream[..n] + [stream[n]] ensures Present(records, state.lastCommittedRound, c) {
          KeepsOn(start.records, middle, records, last, state.lastCommittedRound, c);
        }
        KeepsOn(start.records, middle, records, last, state.lastCommittedRound, stream[n]);
        assert stream[..n] + [stream[n]] == stream[..n + 1];
        waves := waves + [batch];
        n := n + 1;
      }
      assert stream[..n] == stream;
      RunFacts(this);
    }

    /** Insert a record and keep track of the delivery discipline. */
    method Store(certificate: Certificate)
      requires Valid() && Hashes(headers, certificate)
      modifies this`records, this`disciplined, state`dag
      ensures Valid() && WellKeyed(state.dag)
      ensures records == InsertRecord(old(records), certificate)
      ensures state.dag == InsertIndexed(old(state.dag), certificate)
      ensures disciplined == (old(disciplined) && TargetReady(old(records), state.lastCommittedRound, certificate))
    {
      hide Covered, DistinctDigests, Increasing, IsMaximum, TargetReady, TargetsReady, InsertIndexed, InsertRecord;
      hide Chained, Waves, OutputsChain, Hashed, Hashes, WellIndexed, WellKeyed;
      if disciplined && TargetReady(records, state.lastCommittedRound, certificate) {
        TargetsKeptByInsert(headers, records, state.lastCommittedRound, certificate);
      }
      disciplined := disciplined && TargetReady(records, state.lastCommittedRound, certificate);
      InsertIndexedKeyed(state.dag, certificate);
      InsertExact(records, certificate);
      HashedInsert(headers, records, certificate);
      records := InsertRecord(records, certificate);
      state.dag := InsertIndexed(state.dag, certificate);
    }

    /** Search the leader chain and, if there is one, output its wave. */
    method CommitBoundary(round: Round) returns (batch: seq<Certificate>)
      requires Valid() && Gate(committee, name, state.dag, processed, state.lastCommittedRound, round)
      modifies this`records, this`processed, this`output, this`boundaries, state
      ensures Valid()
      ensures output == old(output) + batch && LaterRounds(old(output), batch)
      ensures state.lastCommittedRound >= old(state.lastCommittedRound)
      ensures if Opens(old(Here()), round) then CommitsBoundary(old(Here()), round, batch, Here())
              else batch == [] && Here() == old(Here())
      ensures |boundaries| <= |old(boundaries)| + 1
      ensures |boundaries| > |old(boundaries)| ==>
                && boundaries[|old(boundaries)|].wave == batch
                && CommittedWave(old(records), old(state.lastCommitted), (committee.Total() + 2) / 3,
                                 boundaries[|old(boundaries)|])
    {
      hide Covered, DistinctDigests, WaveOutput, WaveReach, LaterRounds, ChainIn, Progressing, IsMaximum, HasQuorum;
      hide WellIndexed, Hashed, WellKeyed, Stored;
      batch := [];
      var leader := elect(round, state.dag[round]);
      var chain := VerifyLeaderChain(records, leader, round);
      if chain.NoChain? {
        Nothing(output);
        return;
      }
      FoundChain(records, round, leader, chain);
      processed := processed + {round};
      batch := OutputWave(round, leader.value, chain.b3, chain.b2, chain.b1);
    }

    /** Output the wave of a leader chain and clean up. */
    method OutputWave(round: Round, leader: Author, b3: Certificate, b2: Certificate, b1: Certificate)
      returns (batch: seq<Certificate>)
      requires Valid() && round >= WAVE && round - 3 > state.lastCommittedRound
      requires ChainIn(records, leader, round, b3, b2, b1)
      modifies this`records, this`output, this`boundaries, state
      ensures Valid()
      ensures output == old(output) + batch && LaterRounds(old(output), batch)
      ensures state.lastCommittedRound >= old(state.lastCommittedRound)
      ensures Committed(gcDepth, old(Here()), Boundary(round, leader, b3, b2, b1, batch), Here())
      ensures CommittedWave(old(records), old(state.lastCommitted), committee.ValidityThreshold(),
                            Boundary(round, leader, b3, b2, b1, batch))
    {
      hide Covered, DistinctDigests, WaveOutput, WaveReach, LaterRounds, ChainIn, Progressing, IsMaximum;
      hide WellIndexed, Hashed, WellKeyed, Stored, RaiseAll, RetainFrom, Committee.ValidityThreshold;
      hide Cleaned, CommittedWave, Chained, Waves, OutputsChain, Hashes;
      ChainStored(records, leader, round, b3, b2, b1);
      ghost var r: set<Digest>;
      r, batch := CollectWave(records, state.lastCommitted, round, committee.ValidityThreshold(),
                              [b3, b2, b1]);
      ghost var before, lastRound, beforeDag := state.lastCommitted, state.lastCommittedRound, state.dag;
      OutputHashed(headers, records, output);
      WaveIsNew(records, before, round, committee.ValidityThreshold(), r, output, batch);
      BatchHashed(headers, records, batch);
      UpdateAll(state, batch, gcDepth);
      CleanedKeyed(beforeDag, state.dag, state.lastCommitted, gcDepth, state.lastCommittedRound);
      RaiseAllCovers(before, batch, output);
      RaiseAllMax(before, batch, lastRound, state.lastCommittedRound);
      var floor := if state.lastCommittedRound < gcDepth then 0 else state.lastCommittedRound - gcDepth;
      ghost var b := Boundary(round, leader, b3, b2, b1, batch);
      if disciplined {
        BoundaryAdvances(records, before, committee.ValidityThreshold(), b, r, lastRound, state.lastCommittedRound,
                         boundaries, floor);
      }
      RetainKeeps(headers, records, floor);
      ChainedAppend(headers, records, boundaries, b);
      WavesAppend(boundaries, b);
      WaveCommitted(records, before, committee.ValidityThreshold(), b, r);
      records := RetainFrom(records, floor);
      output := output + batch;
      boundaries := boundaries + [b];
    }
  }

  /** The waves grow author by author and make up what has been output since. */
  ghost predicate Spread(waves: seq<seq<Certificate>>, before: seq<Certificate>, output: seq<Certificate>) {
    && (forall i, j :: 0 <= i < j < |waves| ==> LaterRounds(waves[i], waves[j]))
    && (forall i, c :: 0 <= i < |waves| && c in waves[i] ==> c in output)
    && (forall c :: c in output ==> c in before || exists i :: 0 <= i < |waves| && c in waves[i])
  }

  lemma SpreadNext(waves: seq<seq<Certificate>>, before: seq<Certificate>, output: seq<Certificate>,
                   batch: seq<Certificate>)
    requires Spread(waves, before, output) && LaterRounds(output, batch)
    ensures Spread(waves + [batch], before, output + batch)
  {
    hide LaterRounds;
    var all := waves + [batch];
    forall i | 0 <= i < |waves| ensures LaterRounds(waves[i], batch) { LaterPart(waves[i], output, batch); }
    forall c | c in output + batch ensures c in before || exists i :: 0 <= i < |all| && c in all[i] {
      if c in output && c !in before {
        var i :| 0 <= i < |waves| && c in waves[i];
        assert all[i] == waves[i];
      } else if c !in output {
        assert all[|waves|] == batch;
      }
    }
  }

  lemma KeepsSame(records: Records, last: Round)
    ensures Keeps(records, records, last)
  {
  }

  lemma RunFacts(n: Node)
    requires n.Valid()
    ensures DistinctDigests(n.output) && n.output == Waves(n.boundaries) && Chained(n.headers, n.boundaries)
    ensures n.disciplined ==>
              Increasing(n.boundaries) && forall i :: 0 <= i < |n.boundaries| ==> OutputsChain(n.boundaries[i])
  {
  }

  lemma LaterPart(part: seq<Certificate>, before: seq<Certificate>, batch: seq<Certificate>)
    requires LaterRounds(before, batch) && forall c :: c in part ==> c in before
    ensures LaterRounds(part, batch)
  {
  }

  lemma OutputHashed(headers: map<Digest, Header>, records: Records, output: seq<Certificate>)
    requires Hashed(headers, records) && forall c :: c in output ==> Hashes(headers, c)
    ensures forall c :: c in output && c.Digest() in records ==>
              records[c.Digest()].Origin() == c.Origin() && records[c.Digest()].Round() == c.Round()
  {
  }

  lemma BatchHashed(headers: map<Digest, Header>, records: Records, batch: seq<Certificate>)
    requires Hashed(headers, records) && forall c :: c in batch ==> c.Digest() in records && records[c.Digest()] == c
    ensures forall c :: c in batch ==> Hashes(headers, c)
  {
  }

  lemma RetainKeeps(headers: map<Digest, Header>, records: Records, floor: Round)
    requires WellIndexed(records) && Hashed(headers, records)
    ensures WellIndexed(RetainFrom(records, floor)) && Hashed(headers, RetainFrom(records, floor))
  {
  }

  /** What a node holds at one moment. */
  datatype NodeState = NodeState(dag: Dag, last: map<Author, Round>, round: Round, records: Records,
                                 processed: set<Round>, boundaries: seq<Boundary>)

  ghost function WithRecord(s: NodeState, c: Certificate): NodeState {
    s.(dag := InsertIndexed(s.dag, c), records := InsertRecord(s.records, c))
  }

  /** The clean-up after a boundary. */
  ghost predicate Committed(gcDepth: nat, s: NodeState, b: Boundary, t: NodeState) {
    && t.last == RaiseAll(s.last, b.wave)
    && (if b.wave == [] then t.round == s.round && t.dag == s.dag
        else t.last != map[] && t.round == MaxValue(t.last) && Cleaned(s.dag, t.dag, t.last, gcDepth, t.round))
    && t.records == RetainFrom(s.records, if t.round < gcDepth then 0 else t.round - gcDepth)
    && t.processed == s.processed && t.boundaries == s.boundaries + [b]
  }

  lemma FoundChain(records: Records, round: Round, leader: Option<Author>, chain: ChainResult)
    requires round >= WAVE && leader.Some? && chain.Chain?
    requires ChainIn(records, leader.value, round, chain.b3, chain.b2, chain.b1)
    ensures !NoChainFor(records, round, leader)
  {
  }

  /** Certified records above `last` are still there, certified. */
  ghost predicate Keeps(before: Records, after: Records, last: Round) {
    forall d :: d in before && before[d].Round() > last && before[d].votes != [] ==>
      d in after && after[d].votes != [] && after[d].Round() == before[d].Round()
  }

  /** A certified record above `last` is there, certified. */
  ghost predicate Present(records: Records, last: Round, c: Certificate) {
    c.Round() > last && c.votes != [] ==>
      c.Digest() in records && records[c.Digest()].votes != [] && records[c.Digest()].Round() == c.Round()
  }

  lemma InsertKeeps(headers: map<Digest, Header>, records: Records, last: Round, c: Certificate)
    requires Hashed(headers, records) && Hashes(headers, c)
    ensures Keeps(records, InsertRecord(records, c), last) && Present(InsertRecord(records, c), last, c)
  {
  }

  lemma KeepsOn(before: Records, middle: Records, after: Records, last: Round, last': Round, c: Certificate)
    requires Keeps(middle, after, last') && last <= last'
    ensures Keeps(before, middle, last) ==> Keeps(before, after, last')
    ensures Present(middle, last, c) ==> Present(after, last', c)
  {
  }

  /** Each carrier comes after the certified form of its QC target: earlier in the stream, or among
      the records held at the start. */
  ghost predicate TargetsFirst(records: Records, stream: seq<Certificate>) {
    forall i :: 0 <= i < |stream| && stream[i].header.qc.Some? ==>
      TargetBefore(records, stream[..i], stream[i].header.qc.value)
  }

  ghost predicate TargetBefore(records: Records, earlier: seq<Certificate>, qc: EmbeddedQc) {
    || (qc.target in records && records[qc.target].votes != [] && records[qc.target].Round() == qc.round)
    || exists c :: c in earlier && c.Digest() == qc.target && c.votes != [] && c.Round() == qc.round
  }

  lemma TargetIsReady(start: Records, earlier: seq<Certificate>, records: Records, last: Round, c: Certificate)
    requires c.header.qc.Some? ==> TargetBefore(start, earlier, c.header.qc.value)
    requires Keeps(start, records, last) && forall x :: x in earlier ==> Present(records, last, x)
    ensures TargetReady(records, last, c)
  {
  }

  /** A boundary outputs the wave of its leader's chain. */
  ghost predicate CommittedWave(records: Records, last: map<Author, Round>, threshold: nat, b: Boundary) {
    && b.round >= WAVE && ChainIn(records, b.leader, b.round, b.b3, b.b2, b.b1)
    && exists r ::
         && WaveReach(records, last, b.round, threshold, [b.b3, b.b2, b.b1], r)
         && WaveOutput(records, last, b.round, threshold, r, b.wave)
  }

  lemma WaveCommitted(records: Records, last: map<Author, Round>, threshold: nat, b: Boundary, r: set<Digest>)
    requires b.round >= WAVE && ChainIn(records, b.leader, b.round, b.b3, b.b2, b.b1)
    requires WaveReach(records, last, b.round, threshold, [b.b3, b.b2, b.b1], r)
    requires WaveOutput(records, last, b.round, threshold, r, b.wave)
    ensures CommittedWave(records, last, threshold, b)
  {
  }

  lemma ChainedAppend(headers: map<Digest, Header>, records: Records, bs: seq<Boundary>, b: Boundary)
    requires Hashed(headers, records) && Chained(headers, bs)
    requires b.round >= 4 && ChainIn(records, b.leader, b.round, b.b3, b.b2, b.b1)
    ensures Chained(headers, bs + [b])
  {
    hide QcLinks;
  }

  /** Two nodes that commit one boundary with one elected leader share its b3 and its b2, whatever
      each has received. */
  lemma BoundariesAgree(m: Node, n: Node, signed: set<Vote>, byz: set<Author>, i: nat, j: nat)
    requires m.Valid() && n.Valid() && m.committee == n.committee
    requires OneVotePerSlot(m.committee, signed, byz)
    requires forall d :: d in m.headers ==> VerifiedHeader(m.committee, signed, m.headers[d])
    requires forall d :: d in n.headers ==> VerifiedHeader(n.committee, signed, n.headers[d])
    requires i < |m.boundaries| && j < |n.boundaries|
    requires m.boundaries[i].round == n.boundaries[j].round && m.boundaries[i].leader == n.boundaries[j].leader
    ensures m.boundaries[i].b3.Digest() == n.boundaries[j].b3.Digest()
    ensures m.boundaries[i].b2.Digest() == n.boundaries[j].b2.Digest()
  {
    hide Node.Indexed, Covered, DistinctDigests, Progressing, OneVotePerSlot, VerifiedHeader, ChainOf, Waves;
    var b, b' := m.boundaries[i], n.boundaries[j];
    ChainsCoincide(m.committee, signed, byz, b.leader, b.round, b.b3, b.b2, b.b1, b'.b3, b'.b2, b'.b1);
  }

  lemma Nothing(output: seq<Certificate>)
    ensures output + [] == output && LaterRounds(output, [])
  {
  }

  lemma ChainStored(records: Records, leader: Author, round: Round, b3: Certificate, b2: Certificate, b1: Certificate)
    requires round >= 4 && ChainIn(records, leader, round, b3, b2, b1)
    ensures Stored(records, [b3, b2, b1])
  {
  }

  /** The last committed round grows with the table. */
  lemma RaiseAllMax(last: map<Author, Round>, cs: seq<Certificate>, round: Round, round': Round)
    requires IsMaximum(last, round)
    requires cs == [] ==> round' == round
    requires cs != [] ==> RaiseAll(last, cs) != map[] && round' == MaxValue(RaiseAll(last, cs))
    ensures IsMaximum(RaiseAll(last, cs), round') && round <= round'
    ensures forall c :: c in cs ==> c.Round() <= round'
  {
    RaiseAllCovers(last, cs, []);
    assert [] + cs == cs;
    if cs != [] && last != map[] {
      var a :| a in last && last[a] == round;
      assert RaiseAll(last, cs)[a] >= round;
    }
  }

  lemma BoundaryAdvances(records: Records, last: map<Author, Round>, threshold: nat, b: Boundary, r: set<Digest>,
                         lastRound: Round, lastRound': Round, bs: seq<Boundary>, floor: Round)
    requires b.round >= 4 && WellIndexed(records) && ChainIn(records, b.leader, b.round, b.b3, b.b2, b.b1)
    requires WaveReach(records, last, b.round, threshold, [b.b3, b.b2, b.b1], r)
    requires WaveOutput(records, last, b.round, threshold, r, b.wave)
    requires IsMaximum(last, lastRound) && b.round - 3 > lastRound && lastRound <= lastRound' && floor <= lastRound'
    requires forall c :: c in b.wave ==> c.Round() <= lastRound'
    requires Progressing(records, lastRound, bs)
    ensures Progressing(RetainFrom(records, floor), lastRound', bs + [b]) && OutputsChain(b)
  {
    hide WaveReach, InWave, ByRoundAndDigest;
    ChainTargets(records, b.leader, b.round, b.b3, b.b2, b.b1, lastRound);
    ChainIsOutput(records, last, b.round, threshold, b.leader, b.b3, b.b2, b.b1, r);
    assert b.b3 in b.wave && b.b2 in b.wave;
    TargetsKeptByRetain(records, lastRound, lastRound', floor);
  }

  lemma ChainTargets(records: Records, leader: Author, round: Round, b3: Certificate, b2: Certificate,
                     b1: Certificate, last: Round)
    requires round >= 4 && ChainIn(records, leader, round, b3, b2, b1) && TargetsReady(records, last)
    requires round - 3 > last
    ensures ChainCertified(b3, b2) && b2.Round() == round - 2
    ensures records[b3.Digest()] == b3 && records[b2.Digest()] == b2
  {
    assert TargetReady(records, last, records[b2.Digest()]);
    assert TargetReady(records, last, records[b1.Digest()]);
  }
}
