/** The voting rule of an honest primary, the four ways by which a header reaches it, and when it
    keeps two quorums for one slot impossible. */
module Voting {
  import opened Quorums
  import opened ConsensusState
  import opened Messages

  // ---------------------------------------------------------------- voting

  /** Two votes of the log for one (author, round) name one header. */
  ghost predicate NoDoubleVote(signed: set<Vote>) {
    forall v, w :: v in signed && w in signed && v.origin == w.origin && v.round == w.round ==> v.id == w.id
  }

  /** An earlier vote for the same slot names another header. */
  ghost predicate Conflicts(signed: set<Vote>, h: Header) {
    exists v :: v in signed && v.origin == h.author && v.round == h.round && v.id != h.id
  }

  ghost predicate SlotSigned(signed: set<Vote>, r: Round, a: Author) {
    exists v :: v in signed && v.round == r && v.origin == a
  }

  ghost predicate HeaderSigned(signed: set<Vote>, id: Digest) { exists v :: v in signed && v.id == id }

  lemma SignedGrows(signed: set<Vote>, signed': set<Vote>)
    requires signed <= signed'
    ensures forall r: Round, a: Author :: SlotSigned(signed, r, a) ==> SlotSigned(signed', r, a)
    ensures forall d :: HeaderSigned(signed, d) ==> HeaderSigned(signed', d)
  {
  }

  /** The header, or another one of its slot, has been voted for. */
  ghost predicate Answered(signed: set<Vote>, h: Header) {
    HeaderSigned(signed, h.id) || SlotSigned(signed, h.round, h.author)
  }

  /** Signing a vote doubles one exactly if an earlier vote conflicts with it. */
  lemma VoteLogged(signed: set<Vote>, h: Header, vote: Vote)
    requires vote.id == h.id && vote.round == h.round && vote.origin == h.author
    ensures var after := signed + {vote};
            && (NoDoubleVote(signed) ==> (NoDoubleVote(after) <==> !Conflicts(signed, h)))
            && SlotSigned(after, h.round, h.author) && HeaderSigned(after, h.id)
            && (forall r: Round, a: Author :: SlotSigned(signed, r, a) ==> SlotSigned(after, r, a))
            && (forall d :: HeaderSigned(signed, d) ==> HeaderSigned(after, d))
  {
    var after := signed + {vote};
    assert vote in after;
    SignedGrows(signed, after);
    if Conflicts(signed, h) {
      var v :| v in signed && v.origin == h.author && v.round == h.round && v.id != h.id;
      assert v in after;
    }
  }

  /** A conflict with a slot that is not remembered is below the collection round. */
  lemma RememberedUnlessOld(signed: set<Vote>, gcRound: Round, h: Header, remembered: set<Author>)
    requires forall v :: v in signed && v.round == h.round && v.round >= gcRound ==> v.origin in remembered
    requires h.author !in remembered
    ensures Conflicts(signed, h) ==> h.round < gcRound
  {
  }

  /** The voting rule of an honest primary. */
  class Voter {
    const name: Author
    var lastVoted: map<Round, set<Author>>
    var votedHeaders: map<Digest, Round>
    var gcRound: Round
    /** Everything signed so far. */
    ghost var signed: set<Vote>

    function HasVoted(round: Round, author: Author): bool
      reads this
    {
      round in lastVoted && author in lastVoted[round]
    }

    /** Slots at or above the collection round are remembered, and nothing is remembered that was
        not signed. */
    ghost predicate Valid()
      reads this
    {
      && (forall v :: v in signed ==> v.author == name)
      && (forall v :: v in signed && v.round >= gcRound ==> HasVoted(v.round, v.origin))
      && (forall r: Round, a: Author :: HasVoted(r, a) ==> SlotSigned(signed, r, a))
      && (forall d :: d in votedHeaders ==> HeaderSigned(signed, d))
    }

    constructor (name: Author)
      ensures Valid() && this.name == name && signed == {} && gcRound == 0 && lastVoted == map[]
      ensures votedHeaders == map[]
    {
      this.name := name;
      lastVoted, votedHeaders, gcRound, signed := map[], map[], 0, {};
    }

    /** Vote unless this header or this slot has been voted for.  A header at or above the
        collection round never leads to a second, different vote for its slot. */
    method VoteForHeader(h: Header, voterRound: Round) returns (voted: bool)
      requires Valid()
      modifies this`lastVoted, this`votedHeaders, this`signed
      ensures Valid()
      ensures voted <==> h.id !in old(votedHeaders) && !old(HasVoted(h.round, h.author))
      ensures signed == old(signed) + (if voted then {Vote(h.id, h.round, voterRound, h.author, name)} else {})
      ensures votedHeaders == if voted then old(votedHeaders)[h.id := h.round] else old(votedHeaders)
      ensures forall r: Round, a: Author :: HasVoted(r, a) <==>
                old(HasVoted(r, a)) || (voted && r == h.round && a == h.author)
      ensures Answered(signed, h)
      ensures voted && Conflicts(old(signed), h) ==> h.round < gcRound
      ensures old(NoDoubleVote(signed)) ==> (NoDoubleVote(signed) <==> !(voted && Conflicts(old(signed), h)))
      ensures old(NoDoubleVote(signed)) && h.round >= gcRound ==> NoDoubleVote(signed)
    {
      hide NoDoubleVote, Conflicts, SlotSigned, HeaderSigned;
      if h.id in votedHeaders {
        return false;
      }
      var authors := if h.round in lastVoted then lastVoted[h.round] else {};
      var first := h.author !in authors;
      lastVoted := lastVoted[h.round := authors + {h.author}];
      if !first {
        return false;
      }
      votedHeaders := votedHeaders[h.id := h.round];
      ghost var vote := Vote(h.id, h.round, voterRound, h.author, name);
      VoteLogged(signed, h, vote);
      RememberedUnlessOld(signed, gcRound, h, authors);
      signed := signed + {vote};
      return true;
    }

    /** Garbage collection forgets the slots below the new collection round. */
    method Sweep(gcRound': Round)
      requires Valid() && gcRound' >= gcRound
      modifies this`lastVoted, this`votedHeaders, this`gcRound
      ensures Valid() && gcRound == gcRound'
      ensures forall r: Round, a: Author :: HasVoted(r, a) <==> old(HasVoted(r, a)) && r >= gcRound'
      ensures forall d :: d in votedHeaders <==> d in old(votedHeaders) && old(votedHeaders)[d] >= gcRound'
      ensures forall d :: d in votedHeaders ==> votedHeaders[d] == old(votedHeaders)[d]
    {
      lastVoted := map r | r in lastVoted && r >= gcRound' :: lastVoted[r];
      votedHeaders := map d | d in votedHeaders && votedHeaders[d] >= gcRound' :: votedHeaders[d];
      gcRound := gcRound';
    }
  }

  // ---------------------------------------------------------------- how headers reach the rule

  /** Neither below the collection round nor more than ten rounds ahead. */
  predicate InWindow(gcRound: Round, localRound: Round, h: Header) { gcRound <= h.round <= localRound + 10 }

  /** What Core and the two waiters hold.  A certificate is represented by its header. */
  datatype Queues = Queues(
    gcRound: Round,
    /** Headers whose processing has begun. */
    processing: set<Header>,
    /** With the header waiter: waiting for dependencies, and handed back. */
    waiting: set<Header>,
    returned: seq<Header>,
    /** With the certificate waiter: waiting for ancestors, and handed back. */
    suspended: multiset<Header>,
    handedBack: seq<Header>)

  /** One input.  `complete` says whether the header's dependencies are there, `delivered` whether
      the certificate's ancestors are, and `begun` whether Core still knows the certificate's header:
      by `processing`, or with Shortfin by its record state, which begins later. */
  datatype Input =
    | NetworkHeader(header: Header, complete: bool, localRound: Round)
    | NetworkCertificate(header: Header, begun: bool, complete: bool, delivered: bool)
    | OwnHeader(header: Header, complete: bool)
    | TakeHeader(complete: bool)
    | TakeCertificate(begun: bool, complete: bool, delivered: bool)
    | HeaderReady(header: Header)
    | WaiterCollects(round: Round)
    | CertificateReady(header: Header)

  /** An input, the Shortfin QC target whose payload it makes available, if any, and the collection
      round of the clean-up that follows. */
  datatype CoreStep = CoreStep(input: Input, target: Option<Header>, voterRound: Round, gcRound: Round)

  function Larger(a: nat, b: nat): nat { if a < b then b else a }

  /** Start processing a header: it is voted on if complete, else handed to the header waiter. */
  function Processed(q: Queues, h: Header, complete: bool): Queues {
    q.(processing := q.processing + {h}, waiting := q.waiting + if complete then {} else {h})
  }

  /** Process a certificate: its header only if that has not begun; it waits if ancestors miss. */
  function CertificateProcessed(q: Queues, h: Header, begun: bool, complete: bool, delivered: bool): Queues {
    var q' := if begun && h in q.processing then q else Processed(q, h, complete);
    q'.(suspended := q'.suspended + if delivered then multiset{} else multiset{h})
  }

  function Fed(q: Queues, input: Input): Queues {
    match input
    case NetworkHeader(h, complete, localRound) =>
      if InWindow(q.gcRound, localRound, h) then Processed(q, h, complete) else q
    case NetworkCertificate(h, begun, complete, delivered) =>
      if q.gcRound <= h.round then CertificateProcessed(q, h, begun, complete, delivered) else q
    case OwnHeader(h, complete) => Processed(q, h, complete)
    case TakeHeader(complete) =>
      if q.returned == [] then q else Processed(q.(returned := q.returned[1..]), q.returned[0], complete)
    case TakeCertificate(begun, complete, delivered) =>
      if q.handedBack == [] then q
      else CertificateProcessed(q.(handedBack := q.handedBack[1..]), q.handedBack[0], begun, complete, delivered)
    case HeaderReady(h) =>
      if h in q.waiting then q.(waiting := q.waiting - {h}, returned := q.returned + [h]) else q
    case WaiterCollects(r) => q.(waiting := set h | h in q.waiting && h.round > r)
    case CertificateReady(h) =>
      if h in q.suspended then q.(suspended := q.suspended - multiset{h}, handedBack := q.handedBack + [h]) else q
  }

  function Collected(q: Queues, gcRound: Round): Queues {
    var gc := Larger(q.gcRound, gcRound);
    q.(gcRound := gc, processing := set h | h in q.processing && h.round >= gc)
  }

  /** The state after a step and the clean-up that ends it. */
  function NextQueues(q: Queues, step: CoreStep): Queues { Collected(Fed(q, step.input), step.gcRound) }

  /** The header that Core processes in a step, whichever way it came. */
  function Handled(q: Queues, input: Input): Option<Header> {
    match input
    case NetworkHeader(h, _, localRound) => if InWindow(q.gcRound, localRound, h) then Some(h) else None
    case NetworkCertificate(h, begun, _, _) =>
      if q.gcRound <= h.round && !(begun && h in q.processing) then Some(h) else None
    case OwnHeader(h, _) => Some(h)
    case TakeHeader(_) => if q.returned == [] then None else Some(q.returned[0])
    case TakeCertificate(begun, _, _) =>
      if q.handedBack == [] || (begun && q.handedBack[0] in q.processing) then None else Some(q.handedBack[0])
    case HeaderReady(_) => None
    case WaiterCollects(_) => None
    case CertificateReady(_) => None
  }

  predicate Complete(input: Input) {
    match input
    case NetworkHeader(_, complete, _) => complete
    case NetworkCertificate(_, _, complete, _) => complete
    case OwnHeader(_, complete) => complete
    case TakeHeader(complete) => complete
    case TakeCertificate(_, complete, _) => complete
    case _ => false
  }

  /** The header of a peer reaches the rule below the collection round. */
  predicate Late(name: Author, q: Queues, step: CoreStep) {
    match Handled(q, step.input)
    case None => false
    case Some(h) => Complete(step.input) && h.author != name && h.round < q.gcRound
  }

  function Start(): Queues { Queues(0, {}, {}, [], multiset{}, []) }

  function QueuesFrom(q: Queues, steps: seq<CoreStep>): Queues {
    if steps == [] then q else NextQueues(QueuesFrom(q, steps[..|steps| - 1]), steps[|steps| - 1])
  }

  function QueuesAfter(steps: seq<CoreStep>): Queues { QueuesFrom(Start(), steps) }

  /** Some step of the run is late. */
  ghost predicate LateIn(name: Author, steps: seq<CoreStep>) {
    exists i :: 0 <= i < |steps| && Late(name, QueuesAfter(steps[..i]), steps[i])
  }

  /** Which headers reach the rule: from the network those at or above the collection round and at most ten
      rounds ahead, with a certificate those at or above it that are not being processed, and from the two
      loopback channels whatever comes, whatever its round. */
  lemma ReachesRule(q: Queues, h: Header, localRound: Round, complete: bool, delivered: bool)
    ensures Handled(q, NetworkHeader(h, complete, localRound)) == Some(h) <==> q.gcRound <= h.round <= localRound + 10
    ensures Handled(q, NetworkCertificate(h, true, complete, delivered)) == Some(h) <==>
            q.gcRound <= h.round && h !in q.processing
    ensures q.returned != [] ==> Handled(q, TakeHeader(complete)) == Some(q.returned[0])
    ensures q.handedBack != [] && q.handedBack[0] !in q.processing ==>
              Handled(q, TakeCertificate(true, complete, delivered)) == Some(q.handedBack[0])
  {
  }

  /** What the waiters give up: the header waiter what waits at or below its collection round, the
      certificate waiter nothing. */
  lemma WaitersGiveUp(q: Queues, r: Round, h: Header)
    ensures h in Fed(q, WaiterCollects(r)).waiting <==> h in q.waiting && h.round > r
    ensures var q' := Fed(q, WaiterCollects(r));
            q'.returned == q.returned && q'.suspended == q.suspended && q'.handedBack == q.handedBack
    ensures h in q.waiting ==> Fed(q, HeaderReady(h)).returned == q.returned + [h]
    ensures h in q.suspended ==> Fed(q, CertificateReady(h)).handedBack == q.handedBack + [h]
  {
  }

  /** Late inputs come only from the two loopback channels. */
  lemma LateIsLoopback(name: Author, q: Queues, step: CoreStep)
    requires Late(name, q, step) && (step.input.OwnHeader? ==> step.input.header.author == name)
    ensures step.input.TakeHeader? || step.input.TakeCertificate?
  {
  }

  // ---------------------------------------------------------------- own headers

  /** Headers signed by this primary: one per round. */
  ghost predicate Genuine(name: Author, own: Round -> Digest, h: Header) { h.author == name ==> h.id == own(h.round) }

  ghost predicate GenuineStep(name: Author, own: Round -> Digest, step: CoreStep) {
    && (step.target.Some? ==> Genuine(name, own, step.target.value))
    && (Carried(step.input).Some? ==> Genuine(name, own, Carried(step.input).value))
    && (step.input.OwnHeader? ==> step.input.header.author == name)
  }

  /** Somewhere with the waiters. */
  predicate Held(q: Queues, h: Header) {
    h in q.waiting || h in q.returned || h in q.suspended || h in q.handedBack
  }

  ghost predicate GenuineQueues(name: Author, own: Round -> Digest, q: Queues) {
    forall h :: Held(q, h) ==> Genuine(name, own, h)
  }

  /** The header that a message from outside carries. */
  function Carried(input: Input): Option<Header> {
    match input
    case NetworkHeader(h, _, _) => Some(h)
    case NetworkCertificate(h, _, _, _) => Some(h)
    case OwnHeader(h, _) => Some(h)
    case _ => None
  }

  lemma HeldProcessed(q: Queues, h: Header, begun: bool, complete: bool, delivered: bool, k: Header)
    ensures Held(Processed(q, h, complete), k) ==> Held(q, k) || k == h
    ensures Held(CertificateProcessed(q, h, begun, complete, delivered), k) ==> Held(q, k) || k == h
  {
  }

  /** Nothing is held that was not held before or just came in. */
  lemma HeldAfter(q: Queues, step: CoreStep, k: Header)
    ensures Held(NextQueues(q, step), k) ==> Held(q, k) || Carried(step.input) == Some(k)
    ensures Handled(q, step.input) == Some(k) ==> Held(q, k) || Carried(step.input) == Some(k)
  {
    hide Processed, CertificateProcessed;
    match step.input
    case NetworkHeader(h, complete, _) => HeldProcessed(q, h, true, complete, true, k);
    case NetworkCertificate(h, begun, complete, delivered) => HeldProcessed(q, h, begun, complete, delivered, k);
    case OwnHeader(h, complete) => HeldProcessed(q, h, true, complete, true, k);
    case TakeHeader(complete) =>
      if q.returned != [] { HeldProcessed(q.(returned := q.returned[1..]), q.returned[0], true, complete, true, k); }
    case TakeCertificate(begun, complete, delivered) =>
      if q.handedBack != [] {
        HeldProcessed(q.(handedBack := q.handedBack[1..]), q.handedBack[0], begun, complete, delivered, k);
      }
    case HeaderReady(_) =>
    case WaiterCollects(_) =>
    case CertificateReady(_) =>
  }

  lemma GenuineAfter(name: Author, own: Round -> Digest, q: Queues, step: CoreStep)
    requires GenuineQueues(name, own, q) && GenuineStep(name, own, step)
    ensures GenuineQueues(name, own, NextQueues(q, step))
    ensures Handled(q, step.input).Some? ==> Genuine(name, own, Handled(q, step.input).value)
  {
    hide Genuine, NextQueues, Handled, Held;
    forall k | Held(NextQueues(q, step), k) ensures Genuine(name, own, k) { HeldAfter(q, step, k); }
    if Handled(q, step.input).Some? { HeldAfter(q, step, Handled(q, step.input).value); }
  }

  ghost predicate OwnVotes(name: Author, own: Round -> Digest, signed: set<Vote>) {
    forall v :: v in signed && v.origin == name ==> v.id == own(v.round)
  }

  /** The log names one header per slot, and for our own slots the one we signed. */
  ghost predicate Careful(name: Author, own: Round -> Digest, signed: set<Vote>) {
    NoDoubleVote(signed) && OwnVotes(name, own, signed)
  }

  lemma OwnNeverConflicts(name: Author, own: Round -> Digest, signed: set<Vote>, h: Header)
    requires Careful(name, own, signed) && Genuine(name, own, h) && h.author == name
    ensures !Conflicts(signed, h)
  {
  }

  // ---------------------------------------------------------------- the primary

  predicate Casts(q: Queues, step: CoreStep) { Handled(q, step.input).Some? && Complete(step.input) }

  ghost predicate For(v: Vote, h: Header) { v.id == h.id && v.round == h.round && v.origin == h.author }

  /** The vote is for the header processed in this step, or for the QC target it makes available. */
  ghost predicate CastIn(q: Queues, step: CoreStep, v: Vote) {
    || (Casts(q, step) && For(v, Handled(q, step.input).value))
    || (step.target.Some? && step.target.value in q.processing && For(v, step.target.value))
  }

  /** Neither this header nor its slot is remembered as voted for. */
  predicate Free(votedHeaders: map<Digest, Round>, lastVoted: map<Round, set<Author>>, h: Header) {
    h.id !in votedHeaders && !(h.round in lastVoted && h.author in lastVoted[h.round])
  }

  lemma FedKeepsRound(q: Queues, input: Input)
    ensures Fed(q, input).gcRound == q.gcRound
  {
  }

  /** Core's side of the voting rule, with everything that waits. */
  class Intake {
    const voter: Voter
    var q: Queues

    ghost predicate Valid()
      reads this, voter
    {
      voter.Valid() && voter.gcRound == q.gcRound && forall h :: h in q.processing ==> h.round >= q.gcRound
    }

    constructor (name: Author)
      ensures Valid() && fresh(voter) && voter.name == name && q == Start()
      ensures voter.signed == {} && voter.lastVoted == map[] && voter.votedHeaders == map[]
    {
      voter := new Voter(name);
      q := Start();
    }

    /** One application of the voting rule.  It keeps the log careful for every header but a late
        one of a peer. */
    method Ballot(h: Header, voterRound: Round, ghost own: Round -> Digest)
      requires Valid()
      modifies voter`lastVoted, voter`votedHeaders, voter`signed
      ensures Valid() && old(voter.signed) <= voter.signed && Answered(voter.signed, h)
      ensures var v := Vote(h.id, h.round, voterRound, h.author, voter.name);
              voter.signed ==
                old(voter.signed) + if Free(old(voter.votedHeaders), old(voter.lastVoted), h) then {v} else {}
      ensures voter.votedHeaders.Keys <= old(voter.votedHeaders).Keys + {h.id}
      ensures Careful(voter.name, own, old(voter.signed)) && Genuine(voter.name, own, h)
              && (h.author == voter.name || h.round >= q.gcRound) ==>
                Careful(voter.name, own, voter.signed)
    {
      if Careful(voter.name, own, voter.signed) && Genuine(voter.name, own, h) && h.author == voter.name {
        OwnNeverConflicts(voter.name, own, voter.signed, h);
      }
      var voted := voter.VoteForHeader(h, voterRound);
    }

    /** The votes of one step: for the QC target if its processing has begun, and for the header
        being processed if it is complete. */
    method Votes(step: CoreStep, ghost own: Round -> Digest)
      requires Valid()
      modifies voter`lastVoted, voter`votedHeaders, voter`signed
      ensures Valid() && old(voter.signed) <= voter.signed
      ensures Casts(q, step) ==> Answered(voter.signed, Handled(q, step.input).value)
      ensures forall v :: v in voter.signed ==> v in old(voter.signed) || CastIn(q, step, v)
      ensures Careful(voter.name, own, old(voter.signed)) && GenuineQueues(voter.name, own, q)
              && GenuineStep(voter.name, own, step) && !Late(voter.name, q, step) ==>
                Careful(voter.name, own, voter.signed)
      ensures step.target == None && !Casts(q, step) ==>
                voter.signed == old(voter.signed) && voter.votedHeaders == old(voter.votedHeaders)
      ensures step.target == None && Casts(q, step) ==>
                var h := Handled(q, step.input).value;
                var v := Vote(h.id, h.round, step.voterRound, h.author, voter.name);
                && voter.signed == old(voter.signed)
                     + (if Free(old(voter.votedHeaders), old(voter.lastVoted), h) then {v} else {})
                && voter.votedHeaders.Keys <= old(voter.votedHeaders).Keys + {h.id}
    {
      hide Careful, Answered, GenuineQueues, Fed, Genuine, Free, Voter.Valid;
      var handled := Handled(q, step.input);
      if handled == None {
        return;
      }
      if GenuineQueues(voter.name, own, q) && GenuineStep(voter.name, own, step) {
        GenuineAfter(voter.name, own, q, step);
      }
      if step.target.Some? && step.target.value in q.processing {
        Ballot(step.target.value, step.voterRound, own);
      }
      if Complete(step.input) {
        Ballot(handled.value, step.voterRound, own);
      }
    }

    /** One step of Core: the votes, the queues, and the clean-up. */
    method Take(step: CoreStep, ghost own: Round -> Digest)
      requires Valid()
      modifies this`q, voter`lastVoted, voter`votedHeaders, voter`signed, voter`gcRound
      ensures Valid() && q == NextQueues(old(q), step) && old(voter.signed) <= voter.signed
      ensures Casts(old(q), step) ==> Answered(voter.signed, Handled(old(q), step.input).value)
      ensures forall v :: v in voter.signed ==> v in old(voter.signed) || CastIn(old(q), step, v)
      ensures Careful(voter.name, own, old(voter.signed)) && GenuineQueues(voter.name, own, old(q))
              && GenuineStep(voter.name, own, step) && !Late(voter.name, old(q), step) ==>
                Careful(voter.name, own, voter.signed)
      ensures step.target == None ==>
                voter.votedHeaders.Keys <= old(voter.votedHeaders).Keys
                  + (if Casts(old(q), step) then {Handled(old(q), step.input).value.id} else {})
      ensures step.target == None && Casts(old(q), step) ==>
                var h := Handled(old(q), step.input).value;
                var v := Vote(h.id, h.round, step.voterRound, h.author, voter.name);
                Free(old(voter.votedHeaders), old(voter.lastVoted), h) ==> v in voter.signed
      ensures forall r: Round, a: Author :: voter.HasVoted(r, a) ==> r >= q.gcRound
    {
      hide Careful, Answered, GenuineQueues, Fed, Genuine, CastIn, Late, Handled, Complete;
      Votes(step, own);
      FedKeepsRound(q, step.input);
      q := NextQueues(q, step);
      voter.Sweep(q.gcRound);
    }
  }

  lemma QueuesNext(q: Queues, steps: seq<CoreStep>, i: nat)
    requires i < |steps|
    ensures QueuesFrom(q, steps[..i + 1]) == NextQueues(QueuesFrom(q, steps[..i]), steps[i])
  {
    assert steps[..i + 1][..i] == steps[..i];
  }

  /** Every complete header that reached the rule in the first `n` steps has its slot voted for, and
      every vote is for such a header or a QC target. */
  ghost predicate Logged(steps: seq<CoreStep>, n: nat, signed: set<Vote>)
    requires n <= |steps|
  {
    && (forall i :: 0 <= i < n && Casts(QueuesAfter(steps[..i]), steps[i]) ==>
          Answered(signed, Handled(QueuesAfter(steps[..i]), steps[i].input).value))
    && (forall v :: v in signed ==> exists i :: 0 <= i < n && CastIn(QueuesAfter(steps[..i]), steps[i], v))
  }

  lemma LoggedNext(steps: seq<CoreStep>, n: nat, signed: set<Vote>, signed': set<Vote>)
    requires n < |steps| && Logged(steps, n, signed) && signed <= signed'
    requires var q := QueuesAfter(steps[..n]);
             && (Casts(q, steps[n]) ==> Answered(signed', Handled(q, steps[n].input).value))
             && (forall v :: v in signed' ==> v in signed || CastIn(q, steps[n], v))
    ensures Logged(steps, n + 1, signed')
  {
    hide QueuesAfter, CastIn, Answered, Handled;
    AnsweredGrows(signed, signed');
    forall v | v in signed' ensures exists i :: 0 <= i < n + 1 && CastIn(QueuesAfter(steps[..i]), steps[i], v) {
      if v in signed {
        var i :| 0 <= i < n && CastIn(QueuesAfter(steps[..i]), steps[i], v);
      }
    }
  }

  /** Over any run of inputs and clean-ups, every complete header that reaches the rule has its slot
      voted for, every vote is for such a header or a QC target, and unless a peer's header reaches
      the rule below the collection round no slot is voted for twice.  Such a header can only come
      from one of the two loopback channels. */
  method RunVoter(name: Author, steps: seq<CoreStep>, ghost own: Round -> Digest) returns (intake: Intake, late: bool)
    requires forall i :: 0 <= i < |steps| ==> GenuineStep(name, own, steps[i])
    ensures intake.Valid() && intake.voter.name == name && intake.q == QueuesAfter(steps)
    ensures late <==> LateIn(name, steps)
    ensures Logged(steps, |steps|, intake.voter.signed)
    ensures !late ==> NoDoubleVote(intake.voter.signed)
  {
    hide Intake.Valid, NextQueues, CastIn, Late, GenuineQueues, GenuineStep, NoDoubleVote, OwnVotes, Answered;
    hide Logged, QueuesFrom, Casts, Free;
    intake := new Intake(name);
    late := false;
    EmptyRun(name, own, steps);
    var i := 0;
    while i < |steps|
      invariant 0 <= i <= |steps| && fresh(intake) && fresh(intake.voter)
      invariant intake.Valid() && intake.voter.name == name && intake.q == QueuesAfter(steps[..i])
      invariant GenuineQueues(name, own, intake.q) && Logged(steps, i, intake.voter.signed)
      invariant late <==> exists j :: 0 <= j < i && Late(name, QueuesAfter(steps[..j]), steps[j])
      invariant !late ==> Careful(name, own, intake.voter.signed)
    {
      QueuesNext(Start(), steps, i);
      late := late || Late(name, intake.q, steps[i]);
      GenuineAfter(name, own, intake.q, steps[i]);
      ghost var before := intake.voter.signed;
      intake.Take(steps[i], own);
      LoggedNext(steps, i, before, intake.voter.signed);
      i := i + 1;
    }
    assert steps[..i] == steps;
  }

  lemma AnsweredGrows(signed: set<Vote>, signed': set<Vote>)
    requires signed <= signed'
    ensures forall h :: Answered(signed, h) ==> Answered(signed', h)
  {
  }

  lemma EmptyRun(name: Author, own: Round -> Digest, steps: seq<CoreStep>)
    ensures Careful(name, own, {}) && GenuineQueues(name, own, Start())
    ensures QueuesAfter(steps[..0]) == Start() && Logged(steps, 0, {})
  {
  }

  // ---------------------------------------------------------------- the condition is exact

  /** Steps in which nothing is voted for. */
  ghost predicate Idle(q: Queues, steps: seq<CoreStep>) {
    forall i :: 0 <= i < |steps| ==> steps[i].target == None && !Casts(QueuesFrom(q, steps[..i]), steps[i])
  }

  method TakeIdle(intake: Intake, steps: seq<CoreStep>)
    requires intake.Valid() && Idle(intake.q, steps)
    modifies intake`q, intake.voter`lastVoted, intake.voter`votedHeaders, intake.voter`signed, intake.voter`gcRound
    ensures intake.Valid() && intake.q == QueuesFrom(old(intake.q), steps)
    ensures old(intake.voter.signed) <= intake.voter.signed
    ensures intake.voter.votedHeaders.Keys <= old(intake.voter.votedHeaders.Keys)
    ensures steps != [] ==> forall r: Round, a: Author :: intake.voter.HasVoted(r, a) ==> r >= intake.q.gcRound
  {
    hide Intake.Valid, NextQueues, CastIn, Late, GenuineQueues, GenuineStep, Careful, Answered, Casts, Free;
    var i := 0;
    while i < |steps|
      invariant 0 <= i <= |steps| && intake.Valid() && intake.q == QueuesFrom(old(intake.q), steps[..i])
      invariant old(intake.voter.signed) <= intake.voter.signed
      invariant intake.voter.votedHeaders.Keys <= old(intake.voter.votedHeaders.Keys)
      invariant i > 0 ==> forall r: Round, a: Author :: intake.voter.HasVoted(r, a) ==> r >= intake.q.gcRound
    {
      QueuesNext(old(intake.q), steps, i);
      intake.Take(steps[i], _ => 0);
      i := i + 1;
    }
    assert steps[..i] == steps;
  }

  function At(input: Input, h: Header, gcRound: Round): CoreStep { CoreStep(input, None, h.round, gcRound) }

  /** A run that votes for one header of a slot, forgets it and then takes another. */
  ghost predicate Forgetful(first: CoreStep, middle: seq<CoreStep>, last: CoreStep, h: Header, siblingId: Digest) {
    && first.target == None && Casts(Start(), first) && Handled(Start(), first.input) == Some(h.(id := siblingId))
    && first.voterRound == last.voterRound == h.round && last.target == None && middle != []
    && var q := NextQueues(Start(), first);
    && Idle(q, middle)
    && var q' := QueuesFrom(q, middle);
    && Casts(q', last) && Handled(q', last.input) == Some(h) && q'.gcRound > h.round
  }

  method VoteTwice(name: Author, first: CoreStep, middle: seq<CoreStep>, last: CoreStep, h: Header, siblingId: Digest)
    returns (intake: Intake)
    requires Forgetful(first, middle, last, h, siblingId) && siblingId != h.id
    ensures intake.Valid() && intake.voter.name == name
    ensures intake.q == NextQueues(QueuesFrom(NextQueues(Start(), first), middle), last)
    ensures !NoDoubleVote(intake.voter.signed)
  {
    hide Intake.Valid, NextQueues, CastIn, Late, GenuineQueues, GenuineStep, Careful, Answered, Idle, NoDoubleVote;
    hide Start;
    intake := new Intake(name);
    intake.Take(first, _ => 0);
    TakeIdle(intake, middle);
    assert !intake.voter.HasVoted(h.round, h.author);
    intake.Take(last, _ => 0);
    SignedTwice(intake.voter.signed, h, siblingId, name);
  }

  lemma SignedTwice(signed: set<Vote>, h: Header, siblingId: Digest, name: Author)
    requires siblingId != h.id
    requires Vote(siblingId, h.round, h.round, h.author, name) in signed
    requires Vote(h.id, h.round, h.round, h.author, name) in signed
    ensures !NoDoubleVote(signed)
  {
    var v, w := Vote(siblingId, h.round, h.round, h.author, name), Vote(h.id, h.round, h.round, h.author, name);
    assert v.origin == w.origin && v.round == w.round && v.id != w.id;
  }

  lemma QueuesThree(q: Queues, a: CoreStep, b: CoreStep, c: CoreStep)
    ensures QueuesFrom(q, [a]) == NextQueues(q, a) && QueuesFrom(q, [a, b]) == NextQueues(NextQueues(q, a), b)
    ensures QueuesFrom(q, [a, b, c]) == NextQueues(NextQueues(NextQueues(q, a), b), c)
    ensures [a, b, c][..0] == [] && [a, b, c][..1] == [a] && [a, b, c][..2] == [a, b] && QueuesFrom(q, []) == q
  {
    assert [a][..0] == [] && [a, b][..1] == [a] && [a, b, c][..2] == [a, b];
  }

  lemma QueuesFive(a: CoreStep, b: CoreStep, c: CoreStep, d: CoreStep, e: CoreStep)
    ensures QueuesAfter([a, b, c, d, e]) == NextQueues(QueuesFrom(NextQueues(Start(), a), [b, c, d]), e)
  {
    hide NextQueues, Start, QueuesFrom;
    var steps := [a, b, c, d, e];
    QueuesThree(NextQueues(Start(), a), b, c, d);
    QueuesThree(Start(), a, b, c);
    QueuesNext(Start(), steps, 3);
    QueuesNext(Start(), steps, 4);
    assert steps[..3] == [a, b, c] && steps[..5] == steps;
  }

  /** Header channel: for every peer header below a collection round there is a run to that round,
      with the header waiter collecting too, in which the header is voted for although a sibling
      was.  It had been handed back before the sweep. */
  method LateHeaderIsVotedTwice(name: Author, h: Header, siblingId: Digest, gcRound: Round)
    returns (intake: Intake, steps: seq<CoreStep>)
    requires h.author != name && h.round < gcRound && siblingId != h.id
    ensures intake.Valid() && intake.voter.name == name && intake.q == QueuesAfter(steps) && intake.q.gcRound == gcRound
    ensures forall i :: 0 <= i < |steps| ==> !steps[i].input.TakeCertificate? && !steps[i].input.OwnHeader?
    ensures !NoDoubleVote(intake.voter.signed)
  {
    hide Intake.Valid, NoDoubleVote, Forgetful, QueuesAfter, QueuesFrom, NextQueues;
    var first := At(NetworkHeader(h.(id := siblingId), true, h.round), h, 0);
    var wait := At(NetworkHeader(h, false, h.round), h, 0);
    var ready := At(HeaderReady(h), h, 0);
    var sweep := At(WaiterCollects(gcRound), h, gcRound);
    var take := At(TakeHeader(true), h, gcRound);
    HeaderForgotten(h, siblingId, gcRound, first, wait, ready, sweep, take);
    intake := VoteTwice(name, first, [wait, ready, sweep], take, h, siblingId);
    QueuesFive(first, wait, ready, sweep, take);
    steps := [first, wait, ready, sweep, take];
  }

  lemma HeaderForgotten(h: Header, siblingId: Digest, gcRound: Round, first: CoreStep, wait: CoreStep,
                        ready: CoreStep, sweep: CoreStep,
                        take: CoreStep)
    requires h.round < gcRound && siblingId != h.id
    requires first == At(NetworkHeader(h.(id := siblingId), true, h.round), h, 0)
    requires wait == At(NetworkHeader(h, false, h.round), h, 0) && ready == At(HeaderReady(h), h, 0)
    requires sweep == At(WaiterCollects(gcRound), h, gcRound) && take == At(TakeHeader(true), h, gcRound)
    ensures Forgetful(first, [wait, ready, sweep], take, h, siblingId)
    ensures NextQueues(QueuesFrom(NextQueues(Start(), first), [wait, ready, sweep]), take).gcRound == gcRound
  {
    hide QueuesFrom;
    var q1 := NextQueues(Start(), first);
    var q2 := NextQueues(q1, wait);
    assert q2.waiting == {h} && q2.returned == [] && q2.gcRound == 0;
    var q3 := NextQueues(q2, ready);
    assert q3.returned == [h] && q3.gcRound == 0;
    var q4 := NextQueues(q3, sweep);
    assert q4.returned == [h] && q4.gcRound == gcRound;
    QueuesThree(q1, wait, ready, sweep);
  }

  /** Certificate channel: the same with a certificate whose ancestors arrive after the header
      waiter has given up on its header.  No header is taken from the header channel at all. */
  method LateCertificateIsVotedTwice(name: Author, h: Header, siblingId: Digest, gcRound: Round)
    returns (intake: Intake, steps: seq<CoreStep>)
    requires h.author != name && h.round < gcRound && siblingId != h.id
    ensures intake.Valid() && intake.voter.name == name && intake.q == QueuesAfter(steps) && intake.q.gcRound == gcRound
    ensures forall i :: 0 <= i < |steps| ==> !steps[i].input.TakeHeader? && !steps[i].input.OwnHeader?
    ensures !NoDoubleVote(intake.voter.signed)
  {
    hide Intake.Valid, NoDoubleVote, Forgetful, QueuesAfter, QueuesFrom, NextQueues;
    var first := At(NetworkHeader(h.(id := siblingId), true, h.round), h, 0);
    var suspend := At(NetworkCertificate(h, true, false, false), h, 0);
    var cancel := At(WaiterCollects(gcRound), h, 0);
    var ready := At(CertificateReady(h), h, gcRound);
    var take := At(TakeCertificate(true, true, true), h, gcRound);
    CertificateForgotten(h, siblingId, gcRound, first, suspend, cancel, ready, take);
    intake := VoteTwice(name, first, [suspend, cancel, ready], take, h, siblingId);
    QueuesFive(first, suspend, cancel, ready, take);
    steps := [first, suspend, cancel, ready, take];
  }

  lemma CertificateForgotten(h: Header, siblingId: Digest, gcRound: Round, first: CoreStep, suspend: CoreStep,
                             cancel: CoreStep,
                             ready: CoreStep, take: CoreStep)
    requires h.round < gcRound && siblingId != h.id
    requires first == At(NetworkHeader(h.(id := siblingId), true, h.round), h, 0)
    requires suspend == At(NetworkCertificate(h, true, false, false), h, 0)
    requires cancel == At(WaiterCollects(gcRound), h, 0)
    requires ready == At(CertificateReady(h), h, gcRound) && take == At(TakeCertificate(true, true, true), h, gcRound)
    ensures Forgetful(first, [suspend, cancel, ready], take, h, siblingId)
    ensures NextQueues(QueuesFrom(NextQueues(Start(), first), [suspend, cancel, ready]), take).gcRound == gcRound
  {
    hide QueuesFrom;
    var q1 := NextQueues(Start(), first);
    assert q1.processing == {h.(id := siblingId)} && q1.gcRound == 0;
    var q2 := NextQueues(q1, suspend);
    assert h in q2.suspended && q2.handedBack == [] && q2.gcRound == 0;
    var q3 := NextQueues(q2, cancel);
    assert h in q3.suspended && q3.handedBack == [] && q3.waiting == {};
    var q4 := NextQueues(q3, ready);
    assert q4.handedBack == [h] && q4.gcRound == gcRound && h !in q4.processing;
    QueuesThree(q1, suspend, cancel, ready);
  }

  /** The voting rule of the honest primaries is what makes two quorums for one slot impossible. */
  lemma HonestVotersSuffice(c: Committee, byz: set<Author>, logs: map<Author, set<Vote>>, signed: set<Vote>)
    requires c.Weight(byz) < c.ValidityThreshold()
    requires forall a :: a in logs ==> NoDoubleVote(logs[a])
    requires forall v :: v in signed && v.author !in byz ==> v.author in logs && v in logs[v.author]
    ensures OneVotePerSlot(c, signed, byz)
  {
    forall v, w | v in signed && w in signed && SameSlot(v, w) && v.author !in byz ensures v.id == w.id {
      assert NoDoubleVote(logs[v.author]);
    }
  }
}
