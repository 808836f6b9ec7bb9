/** Certificates and the in-memory consensus state shared by Narwhal, Bullshark and Shortfin. */
module ConsensusState {
  import opened Quorums

  /** A vote as its signed content; signatures themselves are abstracted. */
  datatype Vote = Vote(id: Digest, round: Round, voterRound: Round, origin: Author, author: Author)

  datatype EmbeddedQc = EmbeddedQc(target: Digest, round: Round, votes: seq<Vote>)

  datatype Header = Header(id: Digest, author: Author, round: Round, parents: set<Digest>, parents2: set<Digest>,
                           qc: Option<EmbeddedQc>)

  /** Hashing is injective, so one identifier stands for the header and for its certificate;
      the votes are not part of it. */
  datatype Certificate = Certificate(header: Header, votes: seq<Vote>) {
    function Digest(): Digest { header.id }
    function Origin(): Author { header.author }
    function Round(): Round { header.round }
  }

  type Dag = map<Round, map<Author, Certificate>>

  ghost predicate Holds(dag: Dag, r: Round, a: Author, c: Certificate) {
    r in dag && a in dag[r] && dag[r][a] == c
  }

  ghost predicate NoEmptyRound(dag: Dag) {
    forall r :: r in dag ==> dag[r] != map[]
  }

  /** Every entry sits under its own round and author. */
  ghost predicate WellKeyed(dag: Dag) {
    forall r, a :: r in dag && a in dag[r] ==> dag[r][a].Round() == r && dag[r][a].Origin() == a
  }

  function Put(dag: Dag, c: Certificate): Dag {
    var byAuthor: map<Author, Certificate> := if c.Round() in dag then dag[c.Round()] else map[];
    dag[c.Round() := byAuthor[c.Origin() := c]]
  }

  // ---------------------------------------------------------------- garbage collection

  /** One pass of the outer retain, for one author. */
  function RetainFor(dag: Dag, name: Author, round: Round, gcDepth: nat, last: Round): Dag {
    map r | r in dag && RetainRound(dag[r], r, name, round) != map[] && r + gcDepth >= last
      :: RetainRound(dag[r], r, name, round)
  }

  function RetainRound(byAuthor: map<Author, Certificate>, r: Round, name: Author, round: Round)
    : map<Author, Certificate>
  {
    map n | n in byAuthor && (n != name || r >= round) :: byAuthor[n]
  }

  lemma RetainForHolds(dag: Dag, name: Author, round: Round, gcDepth: nat, last: Round)
    ensures var dag' := RetainFor(dag, name, round, gcDepth, last);
            && NoEmptyRound(dag')
            && forall r: Round, a: Author, c :: Holds(dag', r, a, c) <==>
                 Holds(dag, r, a, c) && (a != name || r >= round) && r + gcDepth >= last
  {
    var dag' := RetainFor(dag, name, round, gcDepth, last);
    forall r: Round, a: Author, c
      ensures Holds(dag', r, a, c) <==> Holds(dag, r, a, c) && (a != name || r >= round) && r + gcDepth >= last
    {
      if Holds(dag, r, a, c) && (a != name || r >= round) {
        assert a in RetainRound(dag[r], r, name, round);
      }
    }
  }

  /** An entry survives clean-up: it is not older than its author's last commit, and its round
      is within the collection depth of the last committed round. */
  ghost predicate Survives(lastCommitted: map<Author, Round>, r: Round, a: Author, gcDepth: nat, last: Round) {
    (a in lastCommitted ==> r >= lastCommitted[a]) && r + gcDepth >= last
  }

  /** The clean dag keeps exactly the surviving entries. */
  ghost predicate Cleaned(before: Dag, after: Dag, lastCommitted: map<Author, Round>, gcDepth: nat, last: Round) {
    && NoEmptyRound(after)
    && forall r: Round, a: Author, c :: Holds(after, r, a, c) <==>
        Holds(before, r, a, c) && Survives(lastCommitted, r, a, gcDepth, last)
  }

  function MaxValue(m: map<Author, Round>): (r: Round)
    requires m != map[]
    ensures (exists a :: a in m && m[a] == r) && forall a :: a in m ==> m[a] <= r
    decreases |m.Keys|
  {
    assert m.Keys == {} ==> m == map[];
    var a := Least(m.Keys);
    var rest := m - {a};
    assert rest.Keys == m.Keys - {a};
    if rest == map[] then
      assert m.Keys == {a} by { assert rest.Keys == {}; assert m.Keys <= {a}; }
      m[a]
    else
      var r := MaxValue(rest);
      assert forall b :: b in m ==> b == a || b in rest;
      assert exists b :: b in m && m[b] == r by {
        var b :| b in rest && rest[b] == r;
        assert b in m;
      }
      if r < m[a] then m[a] else r
  }

  function RoundsOf(genesis: map<Author, Certificate>): map<Author, Round> {
    map a | a in genesis :: genesis[a].Round()
  }

  class State {
    var lastCommittedRound: Round
    var lastCommitted: map<Author, Round>
    var dag: Dag

    /** Start from the genesis certificates. */
    constructor (genesis: map<Author, Certificate>)
      ensures lastCommittedRound == 0
      ensures lastCommitted == RoundsOf(genesis)
      ensures dag == map[0 := genesis]
    {
      lastCommittedRound := 0;
      lastCommitted := RoundsOf(genesis);
      dag := map[0 := genesis];
    }

    /** Record a committed certificate and clean up.  The nested retains, one pass per author,
        amount to one filter over (round, author). */
    method Update(certificate: Certificate, gcDepth: nat)
      modifies this
      ensures lastCommitted == Raise(old(lastCommitted), certificate)
      ensures lastCommittedRound == MaxValue(lastCommitted)
      ensures Cleaned(old(dag), dag, lastCommitted, gcDepth, lastCommittedRound)
      ensures forall a :: a in lastCommitted <==> a in old(lastCommitted) || a == certificate.header.author
      ensures forall a :: a in old(lastCommitted) && a != certificate.header.author ==>
                lastCommitted[a] == old(lastCommitted)[a]
      ensures var a, r := certificate.header.author, certificate.header.round;
              && lastCommitted[a] >= r && (a in old(lastCommitted) ==> lastCommitted[a] >= old(lastCommitted)[a])
              && (lastCommitted[a] == r || (a in old(lastCommitted) && lastCommitted[a] == old(lastCommitted)[a]))
      ensures forall r: Round, a: Author, c :: Holds(dag, r, a, c) <==>
                Holds(old(dag), r, a, c) && (a in lastCommitted ==> r >= lastCommitted[a])
                && r + gcDepth >= lastCommittedRound
    {
      lastCommitted := Raise(lastCommitted, certificate);
      lastCommittedRound := MaxValue(lastCommitted);
      var rest := lastCommitted.Keys;
      ghost var done: set<Author> := {};
      while rest != {}
        invariant done + rest == lastCommitted.Keys
        invariant lastCommitted == Raise(old(lastCommitted), certificate)
        invariant lastCommittedRound == MaxValue(lastCommitted)
        invariant forall r: Round, a: Author, c :: Holds(dag, r, a, c) <==>
          Holds(old(dag), r, a, c) && (a in done ==> r >= lastCommitted[a])
          && (done != {} ==> r + gcDepth >= lastCommittedRound)
        invariant done != {} ==> NoEmptyRound(dag)
        decreases rest
      {
        var name := Least(rest);
        RetainForHolds(dag, name, lastCommitted[name], gcDepth, lastCommittedRound);
        dag := RetainFor(dag, name, lastCommitted[name], gcDepth, lastCommittedRound);
        rest, done := rest - {name}, done + {name};
      }
      assert certificate.Origin() in done;
    }
  }

  /** The committed round of the certificate's author, raised to the certificate's round. */
  function Raise(lastCommitted: map<Author, Round>, c: Certificate): (m: map<Author, Round>)
    ensures m != map[] && c.Origin() in m && m[c.Origin()] >= c.Round()
    ensures forall a :: a in lastCommitted ==> a in m && m[a] >= lastCommitted[a]
  {
    var m := lastCommitted[c.Origin() :=
      if c.Origin() in lastCommitted && lastCommitted[c.Origin()] > c.Round()
      then lastCommitted[c.Origin()] else c.Round()];
    assert c.Origin() in m;
    m
  }

  // ---------------------------------------------------------------- committing several certificates

  /** The author has committed at or past the round of `c`. */
  predicate Stale(last: map<Author, Round>, c: Certificate) {
    c.Origin() in last && last[c.Origin()] >= c.Round()
  }

  /** Every output certificate is covered by its author's last committed round. */
  ghost predicate Covered(last: map<Author, Round>, output: seq<Certificate>) {
    forall c :: c in output ==> Stale(last, c)
  }

  ghost predicate DistinctDigests(cs: seq<Certificate>) {
    forall i, j :: 0 <= i < j < |cs| ==> cs[i].Digest() != cs[j].Digest()
  }

  /** `last` raised by every certificate of `cs`. */
  ghost function RaiseAll(last: map<Author, Round>, cs: seq<Certificate>): map<Author, Round> {
    if cs == [] then last else Raise(RaiseAll(last, cs[..|cs| - 1]), cs[|cs| - 1])
  }

  lemma {:induction false} RaiseAllCovers(last: map<Author, Round>, cs: seq<Certificate>, output: seq<Certificate>)
    requires Covered(last, output)
    ensures Covered(RaiseAll(last, cs), output + cs)
    ensures forall a :: a in last ==> a in RaiseAll(last, cs) && RaiseAll(last, cs)[a] >= last[a]
  {
    if cs == [] {
      assert output + cs == output;
    } else {
      var front, c := cs[..|cs| - 1], cs[|cs| - 1];
      RaiseAllCovers(last, front, output);
      assert output + cs == output + front + [c];
    }
  }

  /** A raised round is an old one or the round of one of the certificates. */
  lemma {:induction false} RaiseAllAttained(last: map<Author, Round>, cs: seq<Certificate>, a: Author)
    requires a in RaiseAll(last, cs)
    ensures var r := RaiseAll(last, cs)[a];
            (a in last && last[a] == r) || exists c :: c in cs && c.Origin() == a && c.Round() == r
  {
    if cs != [] {
      var front, c := cs[..|cs| - 1], cs[|cs| - 1];
      assert c in cs;
      if RaiseAll(last, cs)[a] != c.Round() || a != c.Origin() {
        RaiseAllAttained(last, front, a);
        forall x | x in front ensures x in cs {}
      }
    }
  }

  /** Filtering again with higher bounds is filtering once. */
  lemma CleanedAgain(d0: Dag, d1: Dag, d2: Dag, m1: map<Author, Round>, m2: map<Author, Round>, gcDepth: nat,
                     r1: Round, r2: Round)
    requires Cleaned(d0, d1, m1, gcDepth, r1) && Cleaned(d1, d2, m2, gcDepth, r2)
    requires r1 <= r2 && forall a :: a in m1 ==> a in m2 && m1[a] <= m2[a]
    ensures Cleaned(d0, d2, m2, gcDepth, r2)
  {
    hide Holds;
  }

  lemma MaxValueGrows(m1: map<Author, Round>, m2: map<Author, Round>)
    requires m1 != map[] && m2 != map[] && forall a :: a in m1 ==> a in m2 && m1[a] <= m2[a]
    ensures MaxValue(m1) <= MaxValue(m2)
  {
  }

  /** Apply the update for every certificate of a batch.  All the clean-ups amount to the last one. */
  method UpdateAll(state: State, cs: seq<Certificate>, gcDepth: nat)
    modifies state
    ensures state.lastCommitted == RaiseAll(old(state.lastCommitted), cs)
    ensures cs == [] ==> state.lastCommittedRound == old(state.lastCommittedRound) && state.dag == old(state.dag)
    ensures cs != [] ==>
              && state.lastCommitted != map[] && state.lastCommittedRound == MaxValue(state.lastCommitted)
              && Cleaned(old(state.dag), state.dag, state.lastCommitted, gcDepth, state.lastCommittedRound)
  {
    hide Cleaned;
    var i := 0;
    while i < |cs|
      invariant 0 <= i <= |cs|
      invariant state.lastCommitted == RaiseAll(old(state.lastCommitted), cs[..i])
      invariant i == 0 ==> state.lastCommittedRound == old(state.lastCommittedRound) && state.dag == old(state.dag)
      invariant i > 0 ==>
        && state.lastCommitted != map[] && state.lastCommittedRound == MaxValue(state.lastCommitted)
        && Cleaned(old(state.dag), state.dag, state.lastCommitted, gcDepth, state.lastCommittedRound)
    {
      assert cs[..i + 1][..i] == cs[..i];
      ghost var dag, last, round := state.dag, state.lastCommitted, state.lastCommittedRound;
      state.Update(cs[i], gcDepth);
      if i > 0 {
        MaxValueGrows(last, state.lastCommitted);
        CleanedAgain(old(state.dag), dag, state.dag, last, state.lastCommitted, gcDepth, round,
            state.lastCommittedRound);
      }
      i := i + 1;
    }
    assert cs[..i] == cs;
  }

  // ---------------------------------------------------------------- round completion

  ghost predicate HasQuorum(c: Committee, dag: Dag, round: Round) {
    round in dag && c.Weight(dag[round].Keys) >= c.QuorumThreshold()
  }

  /** Stake of the distinct authors indexed at a round. */
  method RoundHasQuorum(c: Committee, dag: Dag, round: Round) returns (b: bool)
    requires WellKeyed(dag)
    ensures b <==> HasQuorum(c, dag, round)
    ensures b <==> round in dag && c.Weight(dag[round].Keys) >= 2 * c.Total() / 3 + 1
  {
    hide Committee.Weight;
    if round !in dag {
      return false;
    }
    var weight := 0;
    var rest := dag[round].Keys;
    ghost var done: set<Author> := {};
    assert c.Weight({}) == 0 by { EmptyWeight(c); }
    while rest != {}
      invariant done + rest == dag[round].Keys && done !! rest
      invariant weight == c.Weight(done)
      decreases rest
    {
      var a := Least(rest);
      WeightAdd(c, done, a);
      weight := weight + c.Stake(dag[round][a].Origin());
      rest, done := rest - {a}, done + {a};
    }
    assert done == dag[round].Keys;
    return weight >= c.QuorumThreshold();
  }

  lemma EmptyWeight(c: Committee)
    ensures c.Weight({}) == 0
  {
  }
}
