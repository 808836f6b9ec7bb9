/** What a Narwhal or Bullshark node outputs, as a relation between the states before and after a
    commit, and why no certificate is output twice unless one comes back from before its author's
    last commit. */
module LeaderOutput {
  import opened Quorums
  import opened ConsensusState
  import opened LeaderChain
  import opened SubDags

  // ---------------------------------------------------------------- what a node has received

  /** Received headers come with their whole history. */
  ghost predicate Known(u: set<Header>, received: set<Header>) {
    && received <= u
    && (forall h, k :: h in received && k in u && k.id in h.parents ==> k in received)
  }

  /** The dag holds received headers only, and above the last committed round all of them. */
  ghost predicate Mirrors(dag: Dag, received: set<Header>, last: Round) {
    && WellKeyed(dag)
    && (forall r, a :: r in dag && a in dag[r] ==> dag[r][a].header in received)
    && (forall h :: h in received && h.round > last ==>
          h.round in dag && h.author in dag[h.round] && dag[h.round][h.author].header == h)
  }

  lemma MirrorsPut(c: Committee, u: set<Header>, dag: Dag, received: set<Header>, last: Round, cert: Certificate)
    requires Certified(c, u) && received <= u && cert.header in u && Mirrors(dag, received, last)
    ensures Mirrors(Put(dag, cert), received + {cert.header}, last)
  {
    hide Certified;
    var dag': Dag := Put(dag, cert);
    forall h | h in received + {cert.header} && h.round > last
      ensures h.round in dag' && h.author in dag'[h.round] && dag'[h.round][h.author].header == h
    {
      if h.round == cert.Round() && h.author == cert.Origin() { OnePerSlot(c, u, h, cert.header); }
    }
  }

  lemma MirrorsCleaned(before: Dag, after: Dag, received: set<Header>, last: map<Author, Round>, gcDepth: nat,
                       round: Round, round': Round)
    requires Mirrors(before, received, round) && Cleaned(before, after, last, gcDepth, round')
    requires AtMost(last, round') && round <= round'
    ensures Mirrors(after, received, round')
  {
    forall r, a | r in after && a in after[r]
      ensures after[r][a].Round() == r && after[r][a].Origin() == a && after[r][a].header in received
    {
      assert Holds(after, r, a, after[r][a]);
      assert Holds(before, r, a, after[r][a]);
    }
    forall h | h in received && h.round > round'
      ensures h.round in after && h.author in after[h.round] && after[h.round][h.author].header == h
    {
      assert Holds(before, h.round, h.author, before[h.round][h.author]);
      assert Holds(after, h.round, h.author, before[h.round][h.author]);
    }
  }

  lemma MirrorsOnePerDigest(c: Committee, u: set<Header>, dag: Dag, received: set<Header>, last: Round)
    requires Certified(c, u) && received <= u && Mirrors(dag, received, last)
    ensures OnePerDigest(dag)
  {
    forall y, z | InDag(dag, y) && InDag(dag, z) && y.Digest() == z.Digest() ensures y == z {
      assert y.header == z.header;
    }
  }

  lemma MirrorsGrounded(c: Committee, u: set<Header>, dag: Dag, received: set<Header>, last: Round, leader: Certificate)
    requires Certified(c, u) && received <= u && Mirrors(dag, received, last) && leader.header in u
    ensures OnePerDigest(dag) && Grounded(dag, leader)
  {
    MirrorsOnePerDigest(c, u, dag, received, last);
  }

  ghost predicate AtMost(m: map<Author, Round>, top: Round) {
    forall a :: a in m ==> m[a] <= top
  }

  // ---------------------------------------------------------------- committing leaders

  /** The consensus state at one moment. */
  datatype Snapshot = Snapshot(dag: Dag, last: map<Author, Round>, round: Round)

  /** Committing leader `x` in state `s` outputs `batch` and leaves state `t`: the leader's sub-dag
      without what is too old, in round order, and one clean-up for the raised rounds. */
  ghost predicate LeaderBatch(gcDepth: nat, trim: bool, s: Snapshot, x: Certificate, batch: seq<Certificate>,
                              t: Snapshot) {
    && Flattened(s, x, KeepFloor(trim, gcDepth, s.round), batch)
    && t.last == RaiseAll(s.last, batch) && t.last != map[] && t.round == MaxValue(t.last)
    && Cleaned(s.dag, t.dag, t.last, gcDepth, t.round)
  }

  ghost predicate Flattened(s: Snapshot, x: Certificate, floor: Round, batch: seq<Certificate>) {
    && Ascending(batch) && ByReference(s.dag, s.last, x, floor, batch)
    && exists all :: SubDag(s.dag, s.last, x, all) && multiset(batch) == multiset(KeepFrom(all, floor))
  }

  /** Committing the leaders `xs`, given newest first, one after the other. */
  ghost predicate LeaderBatches(gcDepth: nat, trim: bool, s: Snapshot, xs: seq<Certificate>, output: seq<Certificate>,
                          t: Snapshot)
    decreases |xs|
  {
    if xs == [] then output == [] && s == t
    else exists k, m :: Handover(gcDepth, trim, s, xs, output, t, k, m)
  }

  /** The newest leader takes over from state `m` after `k` certificates. */
  ghost predicate Handover(gcDepth: nat, trim: bool, s: Snapshot, xs: seq<Certificate>, output: seq<Certificate>,
                           t: Snapshot, k: nat, m: Snapshot)
    requires xs != []
    decreases |xs|, 0
  {
    && k <= |output| && LeaderBatches(gcDepth, trim, s, xs[1..], output[..k], m)
    && LeaderBatch(gcDepth, trim, m, xs[0], output[k..], t)
  }

  lemma NextBatch(gcDepth: nat, trim: bool, s: Snapshot, xs: seq<Certificate>, output: seq<Certificate>, m: Snapshot,
                  x: Certificate, batch: seq<Certificate>, t: Snapshot)
    requires LeaderBatches(gcDepth, trim, s, xs, output, m) && LeaderBatch(gcDepth, trim, m, x, batch, t)
    ensures LeaderBatches(gcDepth, trim, s, [x] + xs, output + batch, t)
  {
    hide LeaderBatch;
    var all, k := output + batch, |output|;
    assert ([x] + xs)[1..] == xs && all[..k] == output && all[k..] == batch;
    assert Handover(gcDepth, trim, s, [x] + xs, all, t, k, m);
  }

  lemma SplitBatches(gcDepth: nat, trim: bool, s: Snapshot, xs: seq<Certificate>, output: seq<Certificate>, t: Snapshot)
    returns (k: nat, m: Snapshot)
    requires xs != [] && LeaderBatches(gcDepth, trim, s, xs, output, t)
    ensures Handover(gcDepth, trim, s, xs, output, t, k, m)
  {
    k, m :| Handover(gcDepth, trim, s, xs, output, t, k, m);
  }

  lemma FlattenedMembers(s: Snapshot, x: Certificate, floor: Round, batch: seq<Certificate>)
    requires Flattened(s, x, floor, batch)
    ensures x.Round() >= floor ==> x in batch
    ensures forall c :: c in batch ==> c == x || (InDag(s.dag, c) && c.Round() < x.Round() && !AtLast(s.last, c))
    ensures DistinctDigests(batch)
  {
    hide Ascending, LiveParent;
    var all :| SubDag(s.dag, s.last, x, all) && multiset(batch) == multiset(KeepFrom(all, floor));
    var kept := KeepFrom(all, floor);
    forall c ensures c in batch <==> c in kept { assert c in multiset(batch) <==> c in multiset(kept); }
    forall c | c in batch && c != x ensures !AtLast(s.last, c) {
      var p :| LiveParent(s.dag, s.last, p, c);
      LiveNotLast(s.dag, s.last, p, c);
    }
    KeptDistinct(all, floor);
    SameMembersDistinct(kept, batch);
  }

  /** The certificate sits at its author's last committed round. */
  ghost predicate AtLast(last: map<Author, Round>, c: Certificate) {
    c.Origin() in last && last[c.Origin()] == c.Round()
  }

  lemma LiveNotLast(dag: Dag, last: map<Author, Round>, x: Certificate, y: Certificate)
    requires LiveParent(dag, last, x, y)
    ensures !AtLast(last, y)
  {
  }

  lemma {:induction false} KeptDistinct(cs: seq<Certificate>, floor: Round)
    requires DistinctDigests(cs)
    ensures DistinctDigests(KeepFrom(cs, floor))
  {
    if cs != [] {
      assert DistinctDigests(cs[1..]);
      KeptDistinct(cs[1..], floor);
      var t := KeepFrom(cs[1..], floor);
      forall j | 0 <= j < |t| ensures t[j].Digest() != cs[0].Digest() {
        assert t[j] in t;
        var i :| 0 <= i < |cs[1..]| && cs[1..][i] == t[j];
        assert cs[i + 1] == t[j];
      }
    }
  }

  lemma {:induction false} OnceEach(cs: seq<Certificate>, c: Certificate)
    requires DistinctDigests(cs)
    ensures multiset(cs)[c] <= 1
  {
    if cs != [] {
      var front, z := cs[..|cs| - 1], cs[|cs| - 1];
      assert cs == front + [z];
      assert DistinctDigests(front);
      OnceEach(front, c);
      forall i | 0 <= i < |front| ensures front[i] != z { assert cs[i].Digest() != cs[|cs| - 1].Digest(); }
    }
  }

  lemma CountedTwice(cs: seq<Certificate>, i: nat, j: nat)
    requires i < j < |cs|
    ensures cs[i] == cs[j] ==> multiset(cs)[cs[i]] >= 2
  {
    assert cs == cs[..j] + [cs[j]] + cs[j + 1..] && cs[i] in cs[..j];
  }

  lemma SameMembersDistinct(xs: seq<Certificate>, ys: seq<Certificate>)
    requires DistinctDigests(xs) && multiset(xs) == multiset(ys)
    ensures DistinctDigests(ys)
  {
    forall i, j | 0 <= i < j < |ys| ensures ys[i].Digest() != ys[j].Digest() {
      var a, b := ys[i], ys[j];
      assert a in multiset(ys) && b in multiset(ys);
      var k :| 0 <= k < |xs| && xs[k] == a;
      var l :| 0 <= l < |xs| && xs[l] == b;
      OnceEach(xs, a);
      CountedTwice(ys, i, j);
    }
  }

  /** A leader's output is determined by the state: by round and, within a round, by first reference. */
  lemma BatchUnique(gcDepth: nat, trim: bool, s: Snapshot, x: Certificate, batch: seq<Certificate>, t: Snapshot,
                    batch': seq<Certificate>, t': Snapshot)
    requires LeaderBatch(gcDepth, trim, s, x, batch, t) && LeaderBatch(gcDepth, trim, s, x, batch', t')
    requires OnePerDigest(s.dag) && Grounded(s.dag, x)
    ensures batch == batch'
  {
    hide RaiseAll, Cleaned, OnePerDigest, Grounded, Reached, ByReference, Ascending, DistinctDigests;
    var floor := KeepFloor(trim, gcDepth, s.round);
    FlattenedMembers(s, x, floor, batch);
    FlattenedMembers(s, x, floor, batch');
    OutputIsReached(gcDepth, trim, s, x, batch, t);
    OutputIsReached(gcDepth, trim, s, x, batch', t');
    forall y | y in batch ensures y in batch' { BroughtBackIsOutput(gcDepth, trim, s, x, batch', t', y); }
    forall y | y in batch' ensures y in batch { BroughtBackIsOutput(gcDepth, trim, s, x, batch, t, y); }
    OutputUnique(s.dag, s.last, x, floor, batch, batch');
  }

  /** A commit advances the state to the leader's round and loses nothing above it. */
  lemma BatchAdvances(gcDepth: nat, trim: bool, s: Snapshot, x: Certificate, batch: seq<Certificate>, t: Snapshot,
                      received: set<Header>)
    requires LeaderBatch(gcDepth, trim, s, x, batch, t)
    requires Mirrors(s.dag, received, s.round) && AtMost(s.last, s.round) && x.Round() > s.round
    ensures x in batch && t.round == x.Round()
    ensures Mirrors(t.dag, received, t.round) && AtMost(t.last, t.round)
  {
    hide Mirrors, Cleaned, Flattened, RaiseAll;
    FlattenedMembers(s, x, KeepFloor(trim, gcDepth, s.round), batch);
    RaiseAllCovers(s.last, batch, []);
    assert [] + batch == batch;
    forall a | a in t.last ensures t.last[a] <= x.Round() { RaiseAllAttained(s.last, batch, a); }
    MirrorsCleaned(s.dag, t.dag, received, t.last, gcDepth, s.round, t.round);
  }

  // ---------------------------------------------------------------- nothing twice

  /** Every output certificate that is stored sits at its author's last committed round. */
  ghost predicate NoneRestored(dag: Dag, last: map<Author, Round>, output: seq<Certificate>) {
    forall y :: InDag(dag, y) && y.Digest() in DigestsOf(output) ==> AtLast(last, y)
  }

  /** Storing `c` again brings back an output certificate from before its author's last commit. */
  ghost predicate Restores(last: map<Author, Round>, output: seq<Certificate>, c: Certificate) {
    c.Digest() in DigestsOf(output) && !AtLast(last, c)
  }

  lemma PutRestores(dag: Dag, last: map<Author, Round>, output: seq<Certificate>, c: Certificate)
    requires NoneRestored(dag, last, output)
    ensures NoneRestored(Put(dag, c), last, output) <==> !Restores(last, output, c)
  {
    assert InDag(Put(dag, c), c);
    forall y | InDag(Put(dag, c), y) ensures y == c || InDag(dag, y) {}
  }

  /** The last committed rounds are those of the output, and no higher. */
  ghost predicate Accounted(last: map<Author, Round>, output: seq<Certificate>) {
    && Covered(last, output)
    && (forall a :: a in last ==> last[a] == 0 || exists c :: c in output && c.Origin() == a && c.Round() == last[a])
  }

  lemma AccountedBatch(last: map<Author, Round>, output: seq<Certificate>, batch: seq<Certificate>)
    requires Accounted(last, output)
    ensures Accounted(RaiseAll(last, batch), output + batch)
  {
    hide RaiseAll;
    var last' := RaiseAll(last, batch);
    RaiseAllCovers(last, batch, output);
    forall a | a in last'
      ensures last'[a] == 0 || exists c :: c in output + batch && c.Origin() == a && c.Round() == last'[a]
    {
      RaiseAllAttained(last, batch, a);
      if c :| c in batch && c.Origin() == a && c.Round() == last'[a] {
        assert c in output + batch;
      } else if last'[a] != 0 {
        var c :| c in output && c.Origin() == a && c.Round() == last'[a];
        assert c in output + batch;
      }
    }
  }

  ghost predicate OneHeaderPerDigest(received: set<Header>) {
    forall h, k :: h in received && k in received && h.id == k.id ==> h == k
  }

  ghost predicate AllReceived(received: set<Header>, cs: seq<Certificate>) {
    forall c :: c in cs ==> c.header in received
  }

  /** A batch repeats nothing, and leaves nothing behind that a later one could repeat. */
  lemma BatchIsNew(gcDepth: nat, trim: bool, s: Snapshot, x: Certificate, batch: seq<Certificate>, t: Snapshot,
                   received: set<Header>, output: seq<Certificate>)
    requires LeaderBatch(gcDepth, trim, s, x, batch, t)
    requires Mirrors(s.dag, received, s.round) && AtMost(s.last, s.round) && x.Round() > s.round
    requires x.header in received && OneHeaderPerDigest(received) && AllReceived(received, output)
    requires Accounted(s.last, output)
    ensures AllReceived(received, output + batch) && Accounted(t.last, output + batch)
    ensures DistinctDigests(output) && NoneRestored(s.dag, s.last, output) ==> DistinctDigests(output + batch)
    ensures NoneRestored(t.dag, t.last, output + batch)
  {
    hide Flattened, RaiseAll, Cleaned, Mirrors, OneHeaderPerDigest, Accounted;
    FlattenedMembers(s, x, KeepFloor(trim, gcDepth, s.round), batch);
    BatchReceived(s.dag, received, s.round, x, batch);
    AccountedBatch(s.last, output, batch);
    if DistinctDigests(output) && NoneRestored(s.dag, s.last, output) {
      LeaderIsNew(s.last, s.round, received, output, x);
      BatchDisjoint(s, x, batch, output);
      DistinctAppend(output, batch);
    }
    CleanedUnrestored(s, t, gcDepth, received, output + batch);
  }

  lemma TwiceInOutput(output: seq<Certificate>, batch: seq<Certificate>, d: Digest)
    requires d in DigestsOf(output) && d in DigestsOf(batch)
    ensures !DistinctDigests(output + batch)
  {
    var x :| x in output && x.Digest() == d;
    var y :| y in batch && y.Digest() == d;
    var i :| 0 <= i < |output| && output[i] == x;
    var j :| 0 <= j < |batch| && batch[j] == y;
    assert (output + batch)[i] == x && (output + batch)[|output| + j] == y;
  }

  /** Everything reached over live parents is collected. */
  lemma {:induction false} ReachedCollected(dag: Dag, last: map<Author, Round>, x: Certificate, all: seq<Certificate>,
                                            y: Certificate)
    requires SubDag(dag, last, x, all) && OnePerDigest(dag) && Grounded(dag, x) && Reached(dag, last, x, y)
    ensures y in all
    decreases x.Round() - y.Round()
  {
    if y != x {
      var p :| LiveParent(dag, last, p, y) && Reached(dag, last, x, p);
      ReachedCollected(dag, last, x, all, p);
      var z :| z in all && z.Digest() == y.Digest();
      assert z != x && InDag(dag, z);
    }
  }

  /** From leader `x` the stored state reaches, down to the floor, a certificate that was brought back
      from before its author's last commit. */
  ghost predicate BringsBack(gcDepth: nat, trim: bool, s: Snapshot, x: Certificate, output: seq<Certificate>) {
    exists y ::
      && Reached(s.dag, s.last, x, y) && y.Round() >= KeepFloor(trim, gcDepth, s.round)
      && InDag(s.dag, y) && Restores(s.last, output, y)
  }

  lemma BroughtBackIsOutput(gcDepth: nat, trim: bool, s: Snapshot, x: Certificate, batch: seq<Certificate>, t: Snapshot,
                            y: Certificate)
    requires LeaderBatch(gcDepth, trim, s, x, batch, t) && OnePerDigest(s.dag) && Grounded(s.dag, x)
    requires Reached(s.dag, s.last, x, y) && y.Round() >= KeepFloor(trim, gcDepth, s.round)
    ensures y in batch
  {
    hide Ascending, OnePerDigest, Grounded, Reached, RaiseAll, Cleaned, SubDag;
    var floor := KeepFloor(trim, gcDepth, s.round);
    var all :| SubDag(s.dag, s.last, x, all) && multiset(batch) == multiset(KeepFrom(all, floor));
    ReachedCollected(s.dag, s.last, x, all, y);
    assert y in multiset(KeepFrom(all, floor));
  }

  lemma OutputIsReached(gcDepth: nat, trim: bool, s: Snapshot, x: Certificate, batch: seq<Certificate>, t: Snapshot)
    requires LeaderBatch(gcDepth, trim, s, x, batch, t)
    ensures forall y :: y in batch ==> Reached(s.dag, s.last, x, y) && y.Round() >= KeepFloor(trim, gcDepth, s.round)
  {
    hide Ascending, Reached, RaiseAll, Cleaned;
    var floor := KeepFloor(trim, gcDepth, s.round);
    var all :| SubDag(s.dag, s.last, x, all) && multiset(batch) == multiset(KeepFrom(all, floor));
    forall y | y in batch ensures y in KeepFrom(all, floor) { assert y in multiset(batch); }
  }

  /** A batch repeats something exactly when the state before it reaches, from its leader, a
      certificate that was brought back from before its author's last commit. */
  lemma RepeatsExactly(gcDepth: nat, trim: bool, s: Snapshot, x: Certificate, batch: seq<Certificate>, t: Snapshot,
                       received: set<Header>, output: seq<Certificate>)
    requires LeaderBatch(gcDepth, trim, s, x, batch, t) && DistinctDigests(output)
    requires OnePerDigest(s.dag) && Grounded(s.dag, x)
    requires AtMost(s.last, s.round) && x.Round() > s.round && x.header in received && OneHeaderPerDigest(received)
    requires AllReceived(received, output) && Accounted(s.last, output)
    ensures !DistinctDigests(output + batch) <==> BringsBack(gcDepth, trim, s, x, output)
  {
    hide Flattened, Accounted, DistinctDigests, OneHeaderPerDigest, AllReceived, InDag, AtLast, RaiseAll, Cleaned;
    hide Reached, OnePerDigest, Grounded;
    FlattenedMembers(s, x, KeepFloor(trim, gcDepth, s.round), batch);
    LeaderIsNew(s.last, s.round, received, output, x);
    OutputIsReached(gcDepth, trim, s, x, batch, t);
    if BringsBack(gcDepth, trim, s, x, output) {
      var y :| Reached(s.dag, s.last, x, y) && y.Round() >= KeepFloor(trim, gcDepth, s.round)
               && InDag(s.dag, y) && Restores(s.last, output, y);
      BroughtBackIsOutput(gcDepth, trim, s, x, batch, t, y);
      TwiceInOutput(output, batch, y.Digest());
    } else {
      forall c | c in batch ensures c.Digest() !in DigestsOf(output) { assert c != x ==> !Restores(s.last, output, c); }
      DistinctAppend(output, batch);
    }
  }

  lemma BatchReceived(dag: Dag, received: set<Header>, round: Round, x: Certificate, batch: seq<Certificate>)
    requires Mirrors(dag, received, round) && x.header in received
    requires forall c :: c in batch ==> c == x || InDag(dag, c)
    ensures AllReceived(received, batch)
  {
  }

  lemma LeaderIsNew(last: map<Author, Round>, round: Round, received: set<Header>, output: seq<Certificate>,
                    x: Certificate)
    requires AtMost(last, round) && x.Round() > round && x.header in received && OneHeaderPerDigest(received)
    requires AllReceived(received, output) && Accounted(last, output)
    ensures x.Digest() !in DigestsOf(output)
  {
    forall o | o in output ensures o.Digest() != x.Digest() {
      assert Stale(last, o);
      assert o.Round() < x.Round() && o.header in received;
    }
  }

  lemma BatchDisjoint(s: Snapshot, x: Certificate, batch: seq<Certificate>, output: seq<Certificate>)
    requires forall c :: c in batch ==> c == x || (InDag(s.dag, c) && !AtLast(s.last, c))
    requires x.Digest() !in DigestsOf(output) && NoneRestored(s.dag, s.last, output)
    ensures DigestsOf(output) !! DigestsOf(batch)
  {
  }

  lemma CleanedUnrestored(s: Snapshot, t: Snapshot, gcDepth: nat, received: set<Header>, output: seq<Certificate>)
    requires Mirrors(s.dag, received, s.round) && Cleaned(s.dag, t.dag, t.last, gcDepth, t.round)
    requires AllReceived(received, output) && OneHeaderPerDigest(received) && Accounted(t.last, output)
    ensures NoneRestored(t.dag, t.last, output)
  {
    forall y | InDag(t.dag, y) && y.Digest() in DigestsOf(output) ensures AtLast(t.last, y) {
      var o :| o in output && o.Digest() == y.Digest();
      assert Holds(s.dag, y.Round(), y.Origin(), y);
      assert o.header == y.header;
      assert Stale(t.last, o);
    }
  }

  ghost predicate Descending(cs: seq<Certificate>) {
    forall i, j :: 0 <= i < j < |cs| ==> cs[i].Round() > cs[j].Round()
  }

  function Headers(cs: seq<Certificate>): seq<Header> { seq(|cs|, i requires 0 <= i < |cs| => cs[i].header) }

  /** Some output certificate carries this header. */
  ghost predicate Outputs(sequence: seq<Certificate>, h: Header) {
    exists c :: c in sequence && c.header == h
  }

  /** The leaders are output one after the other, each in a batch of its own. */
  ghost predicate InTurn(sequence: seq<Certificate>, hs: seq<Header>)
    decreases |hs|
  {
    hs == [] ||
    exists k :: 0 <= k <= |sequence| && Outputs(sequence[k..], hs[|hs| - 1]) && InTurn(sequence[..k], hs[..|hs| - 1])
  }

  lemma NextInTurn(sequence: seq<Certificate>, batch: seq<Certificate>, hs: seq<Header>, x: Certificate)
    requires InTurn(sequence, hs) && x in batch
    ensures InTurn(sequence + batch, hs + [x.header])
  {
    var all, k := sequence + batch, |sequence|;
    assert all[..k] == sequence && all[k..] == batch && (hs + [x.header])[..|hs|] == hs;
    assert Outputs(all[k..], x.header);
  }

  lemma NoneInTurn(xs: seq<Certificate>)
    requires xs == []
    ensures InTurn([], Reversed(Headers(xs)))
  {
  }

  lemma ReversedFirst(xs: seq<Certificate>)
    requires xs != []
    ensures Reversed(Headers(xs)) == Reversed(Headers(xs[1..])) + [xs[0].header]
  {
    assert Headers(xs)[1..] == Headers(xs[1..]);
  }

  /** The same for all the batches of a commit; the leaders come out oldest first. */
  lemma {:induction false} BatchesAreNew(gcDepth: nat, trim: bool, s: Snapshot, xs: seq<Certificate>,
                                         sequence: seq<Certificate>,
                                         t: Snapshot, received: set<Header>, output: seq<Certificate>)
    requires LeaderBatches(gcDepth, trim, s, xs, sequence, t) && Descending(xs)
    requires Mirrors(s.dag, received, s.round) && AtMost(s.last, s.round)
    requires forall x :: x in xs ==> x.header in received && x.Round() > s.round
    requires OneHeaderPerDigest(received) && AllReceived(received, output) && Accounted(s.last, output)
    ensures AllReceived(received, output + sequence) && Accounted(t.last, output + sequence)
    ensures Mirrors(t.dag, received, t.round) && AtMost(t.last, t.round)
    ensures t.round == if xs == [] then s.round else xs[0].Round()
    ensures InTurn(sequence, Reversed(Headers(xs)))
    ensures DistinctDigests(output) && NoneRestored(s.dag, s.last, output) ==>
              DistinctDigests(output + sequence) && NoneRestored(t.dag, t.last, output + sequence)
    ensures xs != [] ==> NoneRestored(t.dag, t.last, output + sequence)
    decreases |xs|
  {
    hide LeaderBatch, Mirrors, AtMost, Accounted, NoneRestored, DistinctDigests, OneHeaderPerDigest, AllReceived;
    hide Reversed, Headers, InTurn;
    if xs == [] {
      NoneInTurn(xs);
      assert output + sequence == output;
    } else {
      var k, m := SplitBatches(gcDepth, trim, s, xs, sequence, t);
      var front, batch := sequence[..k], sequence[k..];
      assert xs[0] in xs && forall x :: x in xs[1..] ==> x in xs;
      BatchesAreNew(gcDepth, trim, s, xs[1..], front, m, received, output);
      BatchAdvances(gcDepth, trim, m, xs[0], batch, t, received);
      BatchIsNew(gcDepth, trim, m, xs[0], batch, t, received, output + front);
      assert output + sequence == output + front + batch && sequence == front + batch;
      ReversedFirst(xs);
      NextInTurn(front, batch, Reversed(Headers(xs[1..])), xs[0]);
    }
  }

  lemma PrefixDistinct(xs: seq<Certificate>, ys: seq<Certificate>)
    requires DistinctDigests(xs + ys)
    ensures DistinctDigests(xs)
  {
    forall i, j | 0 <= i < j < |xs| ensures xs[i].Digest() != xs[j].Digest() {
      assert (xs + ys)[i] == xs[i] && (xs + ys)[j] == xs[j];
    }
  }

  lemma OnlyBatch(gcDepth: nat, trim: bool, s: Snapshot, xs: seq<Certificate>, sequence: seq<Certificate>, t: Snapshot)
    requires |xs| == 1 && LeaderBatches(gcDepth, trim, s, xs, sequence, t)
    ensures LeaderBatch(gcDepth, trim, s, xs[0], sequence, t)
  {
    hide LeaderBatch;
    var k, m := SplitBatches(gcDepth, trim, s, xs, sequence, t);
    assert sequence[k..] == sequence;
  }

  /** A commit repeats something exactly when the state before it reaches a certificate brought back
      from its oldest leader: the clean-up after the first batch leaves nothing to repeat. */
  lemma {:induction false} CommitRepeatsExactly(gcDepth: nat, trim: bool, s: Snapshot, xs: seq<Certificate>,
                                                sequence: seq<Certificate>, t: Snapshot, received: set<Header>,
                                                output: seq<Certificate>)
    requires xs != [] && LeaderBatches(gcDepth, trim, s, xs, sequence, t) && Descending(xs) && DistinctDigests(output)
    requires Mirrors(s.dag, received, s.round) && AtMost(s.last, s.round)
    requires OnePerDigest(s.dag) && Grounded(s.dag, xs[|xs| - 1])
    requires forall x :: x in xs ==> x.header in received && x.Round() > s.round
    requires OneHeaderPerDigest(received) && AllReceived(received, output) && Accounted(s.last, output)
    ensures !DistinctDigests(output + sequence) <==> BringsBack(gcDepth, trim, s, xs[|xs| - 1], output)
    decreases |xs|
  {
    hide LeaderBatch, Mirrors, AtMost, Accounted, NoneRestored, DistinctDigests, OneHeaderPerDigest, AllReceived;
    hide Reversed, Headers, InTurn, BringsBack, OnePerDigest, Grounded;
    assert xs[0] in xs && forall x :: x in xs[1..] ==> x in xs;
    if |xs| == 1 {
      OnlyBatch(gcDepth, trim, s, xs, sequence, t);
      RepeatsExactly(gcDepth, trim, s, xs[0], sequence, t, received, output);
    } else {
      var k, m := SplitBatches(gcDepth, trim, s, xs, sequence, t);
      var front, batch := sequence[..k], sequence[k..];
      CommitRepeatsExactly(gcDepth, trim, s, xs[1..], front, m, received, output);
      BatchesAreNew(gcDepth, trim, s, xs[1..], front, m, received, output);
      BatchIsNew(gcDepth, trim, m, xs[0], batch, t, received, output + front);
      assert output + sequence == (output + front) + batch;
      if DistinctDigests(output + sequence) { PrefixDistinct(output + front, batch); }
    }
  }
}
