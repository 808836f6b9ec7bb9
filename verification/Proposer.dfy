/** Core signals the completion of rounds; the proposer turns signals, batch digests and a timer
    into headers.  Shortfin and Mahi-Mahi share the pipe modelled here.  For every interleaving
    a primary creates at most one header per round, and Shortfin headers carry the QC of the
    previous round. */
module Proposer {
  import opened Quorums
  import opened ConsensusState
  import opened Messages

  datatype Signal = Signal(round: Round, parents: set<Digest>, qc: Option<EmbeddedQc>)

  datatype Proposal = Proposal(round: Round, payload: seq<Digest>, parents: set<Digest>, qc: Option<EmbeddedQc>)

  const DIGEST_SIZE: nat := 32

  function MaxOf(s: set<nat>): (m: nat)
    requires s != {}
    ensures m in s && forall x :: x in s ==> x <= m
    decreases s
  {
    var a := Least(s);
    if s == {a} then a
    else
      assert s - {a} != {};
      var b := MaxOf(s - {a});
      assert forall x :: x in s ==> x == a || x in s - {a};
      b
  }

  type ByRound = map<Round, map<Author, Certificate>>

  function RoundsWith(byRound: ByRound, name: Author): set<Round> {
    set r | r in byRound && name in byRound[r]
  }

  /** For each authority, the latest certificate observed. */
  function LatestRefs(c: Committee, byRound: ByRound): set<Digest> {
    set name | name in c.authorities && RoundsWith(byRound, name) != {}
      :: byRound[MaxOf(RoundsWith(byRound, name))][name].Digest()
  }

  function RoundDigests(byRound: ByRound, round: Round): set<Digest>
    requires round in byRound
  {
    set a | a in byRound[round] :: byRound[round][a].Digest()
  }

  /** The references name exactly one certificate per observed authority: its newest. */
  lemma LatestRefsExact(c: Committee, byRound: ByRound, d: Digest)
    ensures d in LatestRefs(c, byRound) <==>
              exists name, r :: IsLatest(c, byRound, name, r) && byRound[r][name].Digest() == d
  {
    if d in LatestRefs(c, byRound) {
      var name :| name in c.authorities && RoundsWith(byRound, name) != {}
                  && byRound[MaxOf(RoundsWith(byRound, name))][name].Digest() == d;
      assert forall k :: k in byRound && name in byRound[k] ==> k in RoundsWith(byRound, name);
      assert IsLatest(c, byRound, name, MaxOf(RoundsWith(byRound, name)));
    }
    if name, r :| IsLatest(c, byRound, name, r) && byRound[r][name].Digest() == d {
      assert r in RoundsWith(byRound, name);
      assert MaxOf(RoundsWith(byRound, name)) == r;
    }
  }

  ghost predicate IsLatest(c: Committee, byRound: ByRound, name: Author, r: Round) {
    && name in c.authorities && r in byRound && name in byRound[r]
    && forall k :: k in byRound && name in byRound[k] ==> k <= r
  }

  /** A round is complete: a quorum of authors and, for Shortfin, our own certificate with votes. */
  ghost predicate RoundComplete(shortfin: bool, c: Committee, name: Author, byRound: ByRound, r: Round) {
    && r in byRound && c.Weight(byRound[r].Keys) >= c.QuorumThreshold()
    && (shortfin ==> name in byRound[r] && byRound[r][name].votes != [])
  }

  lemma RoundCompleteMeans(shortfin: bool, c: Committee, name: Author, byRound: ByRound, r: Round)
    ensures RoundComplete(shortfin, c, name, byRound, r) <==>
            && r in byRound && c.Weight(byRound[r].Keys) >= 2 * c.Total() / 3 + 1
            && (shortfin ==> name in byRound[r] && byRound[r][name].votes != [])
  {
  }

  lemma QuorumHasDigests(c: Committee, byRound: ByRound, r: Round)
    requires r in byRound && c.Weight(byRound[r].Keys) >= c.QuorumThreshold()
    ensures RoundDigests(byRound, r) != {}
  {
    var a := Least(byRound[r].Keys);
    assert byRound[r][a].Digest() in RoundDigests(byRound, r);
  }

  /** What garbage collection leaves. */
  function From(byRound: ByRound, gcRound: Round): ByRound { map r | r in byRound && r >= gcRound :: byRound[r] }

  ghost function RoundsFrom(byRound: ByRound, r: Round): set<Round> { set k | k in byRound && k >= r }

  lemma FewerRounds(byRound: ByRound, r: Round)
    requires r in byRound
    ensures RoundsFrom(byRound, r + 1) < RoundsFrom(byRound, r)
  {
    assert r in RoundsFrom(byRound, r) && r !in RoundsFrom(byRound, r + 1);
  }

  /** The signals a pipe may hold: rounds strictly increase above `after`, up to `last`. */
  ghost predicate Ordered(channel: seq<Signal>, after: Round, last: Round) {
    && after <= last
    && (forall i :: 0 <= i < |channel| ==> after < channel[i].round <= last)
    && (forall i, j :: 0 <= i < j < |channel| ==> channel[i].round < channel[j].round)
  }

  /** A QC of the round before. */
  ghost predicate PreviousQc(qc: Option<EmbeddedQc>, round: Round) { qc.Some? && qc.value.round + 1 == round }

  ghost predicate IncreasingRounds(created: seq<Proposal>) {
    forall i, j :: 0 <= i < j < |created| ==> created[i].round < created[j].round
  }

  ghost predicate CarryQcs(channel: seq<Signal>) {
    forall i :: 0 <= i < |channel| ==> PreviousQc(channel[i].qc, channel[i].round)
  }

  /** Headers so far: rounds strictly increase up to the current round, the current one free if
      parents are waiting; Shortfin headers above round 1 embed the previous round's QC. */
  ghost predicate SoundHeaders(shortfin: bool, created: seq<Proposal>, round: Round, waiting: bool) {
    && IncreasingRounds(created)
    && (forall i :: 0 <= i < |created| ==> created[i].round <= round && (waiting ==> created[i].round < round))
    && (forall i :: 0 <= i < |created| ==>
          if shortfin then created[i].round >= 2 ==> PreviousQc(created[i].qc, created[i].round)
          else created[i].qc == None)
  }

  lemma SignalAppended(channel: seq<Signal>, after: Round, last: Round, signal: Signal)
    requires Ordered(channel, after, last) && signal.round == last + 1
    ensures Ordered(channel + [signal], after, last + 1)
    ensures CarryQcs(channel) && PreviousQc(signal.qc, signal.round) ==> CarryQcs(channel + [signal])
  {
  }

  lemma HeaderAppended(shortfin: bool, created: seq<Proposal>, p: Proposal)
    requires SoundHeaders(shortfin, created, p.round, true)
    requires if shortfin then p.round >= 2 ==> PreviousQc(p.qc, p.round) else p.qc == None
    ensures SoundHeaders(shortfin, created + [p], p.round, false)
  {
  }

  function SaturatingSub(a: nat, b: nat): nat { if a < b then 0 else a - b }

  ghost function Payloads(created: seq<Proposal>): seq<Digest> {
    if created == [] then [] else Payloads(created[..|created| - 1]) + created[|created| - 1].payload
  }

  /** Moving the first digests into a header keeps them in order and accounts for their size. */
  lemma DigestsTaken(created: seq<Proposal>, p: Proposal, digests: seq<Digest>, take: nat)
    requires take <= |digests| && p.payload == digests[..take]
    ensures Payloads(created + [p]) + digests[take..] == Payloads(created) + digests
    ensures SaturatingSub(DIGEST_SIZE * |digests|, DIGEST_SIZE * take) == DIGEST_SIZE * |digests[take..]|
  {
    assert (created + [p])[..|created|] == created;
    assert digests == digests[..take] + digests[take..];
  }

  /** The payload is the oldest digests: one if there is any, then as many as reach the size. */
  ghost predicate Fills(payload: seq<Digest>, digests: seq<Digest>, headerSize: nat) {
    && payload <= digests && (digests != [] ==> payload != [])
    && (|payload| < |digests| ==> |payload| * DIGEST_SIZE >= headerSize)
    && (|payload| > 1 ==> (|payload| - 1) * DIGEST_SIZE < headerSize)
  }

  /** How many digests a header takes: one if there is any, then more until the size limit. */
  method TakeCount(available: nat, headerSize: nat) returns (n: nat)
    ensures n <= available && (available > 0 ==> n > 0)
    ensures n < available ==> n * DIGEST_SIZE >= headerSize
    ensures n > 1 ==> (n - 1) * DIGEST_SIZE < headerSize
  {
    n := 0;
    var size := 0;
    while n < available && (n == 0 || size < headerSize)
      invariant n <= available && size == n * DIGEST_SIZE
      invariant n > 1 ==> (n - 1) * DIGEST_SIZE < headerSize
    {
      size := size + DIGEST_SIZE;
      n := n + 1;
    }
  }

  datatype Event = Certificate(c: ConsensusState.Certificate) | Collect(round: Round)
    | LateQc(c: ConsensusState.Certificate)
    | TakeSignal | BatchDigest(digest: Digest) | Timer

  /** What Core, the channel and the proposer hold at one moment. */
  datatype PipeView = PipeView(nextRound: Round, byRound: ByRound, channel: seq<Signal>, round: Round,
                               parents: set<Digest>, lastQc: Option<EmbeddedQc>, digests: seq<Digest>,
                               timerExpired: bool, created: seq<Proposal>)

  class Pipe {
    const shortfin: bool
    const committee: Committee
    const name: Author
    const headerSize: nat
    /** Weak references added to the strong parents of a round (Mahi-Mahi). */
    const weak: Round -> set<Digest>

    // Core's side
    var nextRound: Round
    var byRound: ByRound
    var pendingQc: set<Round>
    // the channel
    var channel: seq<Signal>
    // the proposer's side
    var round: Round
    var parents: set<Digest>
    var lastQc: Option<EmbeddedQc>
    var digests: seq<Digest>
    var payloadSize: nat
    var timerExpired: bool
    ghost var created: seq<Proposal>
    ghost var received: seq<Digest>

    ghost predicate Valid()
      reads this
    {
      && WellKeyed(byRound) && pendingQc == {}
      && round >= 1 && Ordered(channel, round, nextRound)
      && (shortfin ==> CarryQcs(channel) && (round >= 2 ==> PreviousQc(lastQc, round)))
      && SoundHeaders(shortfin, created, round, parents != {})
      && payloadSize == DIGEST_SIZE * |digests|
      && received == Payloads(created) + digests
    }

    constructor (shortfin: bool, committee: Committee, name: Author, headerSize: nat, weak: Round -> set<Digest>,
                 genesis: map<Author, Certificate>)
      requires forall a :: a in genesis ==> genesis[a].Round() == 0 && genesis[a].Origin() == a
      ensures Valid() && created == [] && this.shortfin == shortfin && this.name == name && this.committee == committee
    {
      this.shortfin, this.committee, this.name, this.headerSize, this.weak :=
          shortfin, committee, name, headerSize, weak;
      nextRound, byRound, pendingQc, channel := 1, map[0 := genesis], {}, [];
      round, parents, lastQc := 1, (set a | a in genesis :: genesis[a].Digest()), None;
      digests, payloadSize, timerExpired := [], 0, false;
      created, received := [], [];
    }

    /** The signal that round `r` is complete. */
    ghost predicate Announces(byRound: ByRound, signal: Signal, r: Round) {
      && signal.round == r + 1 && RoundComplete(shortfin, committee, name, byRound, r)
      && signal.parents == (if shortfin then LatestRefs(committee, byRound) else RoundDigests(byRound, r) + weak(r))
      && signal.qc == (if shortfin then Some(ToEmbeddedQc(byRound[r][name])) else None)
    }

    /** On the certificates: a Mahi-Mahi signal references every certificate of the completed round and the
        weak references, a Shortfin one the newest certificate of each authority and our own as QC. */
    lemma AnnouncesMeans(byRound: ByRound, signal: Signal, r: Round, d: Digest)
      requires Announces(byRound, signal, r)
      ensures signal.round == r + 1
      ensures !shortfin ==>
                && signal.qc == None
                && (d in signal.parents <==>
                    d in weak(r) || exists a :: a in byRound[r] && byRound[r][a].header.id == d)
      ensures shortfin ==>
                && signal.qc == Some(EmbeddedQc(byRound[r][name].header.id, byRound[r][name].header.round,
                                                byRound[r][name].votes))
                && (d in signal.parents <==>
                    exists a, k :: a in committee.authorities && k in byRound && a in byRound[k]
                                   && byRound[k][a].header.id == d
                                   && forall m :: m in byRound && a in byRound[m] ==> m <= k)
    {
      hide Committee.Weight;
      LatestRefsExact(committee, byRound, d);
      if a, k :| a in committee.authorities && k in byRound && a in byRound[k] && byRound[k][a].header.id == d
                 && forall m :: m in byRound && a in byRound[m] ==> m <= k {
        assert IsLatest(committee, byRound, a, k);
      }
    }

    /** Every completed round from `next` on has been signalled, once each, up to the first incomplete. */
    ghost predicate Signalled(byRound: ByRound, channel: seq<Signal>, next: Round, channel': seq<Signal>,
                              next': Round) {
      && channel <= channel' && |channel'| - |channel| == next' - next
      && (forall i :: |channel| <= i < |channel'| ==> Announces(byRound, channel'[i], next + i - |channel|))
      && !RoundComplete(shortfin, committee, name, byRound, next')
    }

    ghost function View(): PipeView
      reads this
    {
      PipeView(nextRound, byRound, channel, round, parents, lastQc, digests, timerExpired, created)
    }

    /** What an event does before the proposer looks at its gate. */
    ghost predicate Reacts(s: PipeView, e: Event, t: PipeView) {
      match e
      case Certificate(c) =>
        && t == s.(byRound := Put(s.byRound, c), channel := t.channel, nextRound := t.nextRound)
        && Signalled(t.byRound, s.channel, s.nextRound, t.channel, t.nextRound)
      case Collect(r) => t == s.(byRound := From(s.byRound, r))
      case LateQc(_) => t == s
      case TakeSignal =>
        if s.channel == [] then t == s
        else
          var signal := s.channel[0];
          t == s.(channel := s.channel[1..], round := signal.round,
                  parents := if !shortfin || signal.parents != {} then signal.parents else s.parents,
                  lastQc := if shortfin && signal.qc.Some? then signal.qc else s.lastQc)
      case BatchDigest(d) => t == s.(digests := s.digests + [d])
      case Timer => t == s.(timerExpired := true)
    }

    /** The gate of the proposer: parents, for Shortfin a QC, and the timer or enough payload. */
    ghost predicate ProposalDue(s: PipeView) {
      && s.parents != {} && (s.timerExpired || DIGEST_SIZE * |s.digests| >= headerSize)
      && (shortfin ==> s.round < 2 || s.lastQc.Some?)
    }

    /** A header is created exactly if the gate is open. */
    ghost predicate Proposes(s: PipeView, t: PipeView) {
      if ProposalDue(s) then exists p :: CreatesHeader(s, p, t) else t == s
    }

    ghost predicate CreatesHeader(s: PipeView, p: Proposal, t: PipeView) {
      && p.round == s.round && p.parents == s.parents && p.qc == (if shortfin then s.lastQc else None)
      && Fills(p.payload, s.digests, headerSize)
      && t == s.(created := s.created + [p], digests := s.digests[|p.payload|..], parents := {}, timerExpired := false)
    }

    ghost predicate Turn(s: PipeView, e: Event, t: PipeView) { exists m :: Reacts(s, e, m) && Proposes(m, t) }

    /** A whole run, event by event. */
    ghost predicate Turns(s: PipeView, events: seq<Event>, t: PipeView)
      decreases |events|
    {
      if events == [] then s == t
      else
        var n := |events| - 1;
        exists m :: Turns(s, events[..n], m) && Turn(m, events[n], t)
    }

    /** A look at the gate, then event by event. */
    ghost predicate Plays(s: PipeView, events: seq<Event>, t: PipeView) {
      exists m :: Proposes(s, m) && Turns(m, events, t)
    }

    lemma TurnsNext(s: PipeView, events: seq<Event>, m: PipeView, e: Event, t: PipeView)
      requires Turns(s, events, m) && Turn(m, e, t)
      ensures Turns(s, events + [e], t)
    {
      hide Pipe.Turn;
      assert (events + [e])[..|events|] == events;
    }

    lemma NoTurns(s: PipeView, events: seq<Event>)
      requires events == []
      ensures Turns(s, events, s)
    {
    }

    /** The signal for the next round, exactly when that round is complete. */
    method NextSignal() returns (signal: Option<Signal>)
      requires Valid()
      ensures signal.Some? <==> RoundComplete(shortfin, committee, name, byRound, nextRound)
      ensures signal.Some? ==> Announces(byRound, signal.value, nextRound)
      ensures signal.Some? && shortfin ==> PreviousQc(signal.value.qc, signal.value.round)
    {
      if nextRound !in byRound {
        return None;
      }
      var byAuthority := byRound[nextRound];
      if committee.Weight(byAuthority.Keys) < committee.QuorumThreshold() {
        return None;
      }
      QuorumHasDigests(committee, byRound, nextRound);
      var strong := RoundDigests(byRound, nextRound);
      if strong == {} {
        return None;
      }
      if !shortfin {
        return Some(Signal(nextRound + 1, strong + weak(nextRound), None));
      }
      if name !in byAuthority || byAuthority[name].votes == [] {
        return None;
      }
      return Some(Signal(nextRound + 1, LatestRefs(committee, byRound), Some(ToEmbeddedQc(byAuthority[name]))));
    }

    /** Signal every completed round in turn, once each, up to the first incomplete one. */
    method TrySignal()
      requires Valid()
      modifies this`channel, this`nextRound
      ensures Valid() && Signalled(byRound, old(channel), old(nextRound), channel, nextRound)
    {
      hide Ordered, CarryQcs, PreviousQc, SoundHeaders, WellKeyed, Payloads;
      hide Committee.Weight, LatestRefs, RoundDigests;
      var signal := NextSignal();
      while signal.Some?
        invariant Valid() && old(channel) <= channel
        invariant |channel| - |old(channel)| == nextRound - old(nextRound)
        invariant forall i :: |old(channel)| <= i < |channel| ==>
                    Announces(byRound, channel[i], old(nextRound) + i - |old(channel)|)
        invariant signal.Some? <==> RoundComplete(shortfin, committee, name, byRound, nextRound)
        invariant signal.Some? ==> Announces(byRound, signal.value, nextRound)
        invariant signal.Some? && shortfin ==> PreviousQc(signal.value.qc, signal.value.round)
        decreases RoundsFrom(byRound, nextRound)
      {
        FewerRounds(byRound, nextRound);
        SignalAppended(channel, round, nextRound, signal.value);
        channel := channel + [signal.value];
        nextRound := nextRound + 1;
        signal := NextSignal();
      }
    }

    /** Core has stored a certificate. */
    method Observe(certificate: Certificate)
      requires Valid()
      modifies this`byRound, this`channel, this`nextRound
      ensures Valid() && byRound == Put(old(byRound), certificate)
      ensures Signalled(byRound, old(channel), old(nextRound), channel, nextRound)
    {
      byRound := Put(byRound, certificate);
      TrySignal();
    }

    /** A late certificate of our own sends a QC-only signal only for a round marked as waiting
        for it; no round ever is. */
    method SendQcSignal(certificate: Certificate)
      modifies this`pendingQc, this`channel
      ensures channel == old(channel) + (if certificate.Round() + 1 in old(pendingQc)
                                         then [Signal(certificate.Round() + 1, {}, Some(ToEmbeddedQc(certificate)))]
                                         else [])
      ensures old(Valid()) ==> Valid() && channel == old(channel)
    {
      var target := certificate.Round() + 1;
      if target in pendingQc {
        pendingQc := pendingQc - {target};
        channel := channel + [Signal(target, {}, Some(ToEmbeddedQc(certificate)))];
      }
    }

    /** Garbage collection on Core's side. */
    method Cleanup(gcRound: Round)
      requires Valid()
      modifies this`byRound
      ensures Valid() && byRound == From(old(byRound), gcRound)
    {
      byRound := From(byRound, gcRound);
    }

    /** The gate at the head of the proposer loop. */
    method TryPropose()
      requires Valid()
      modifies this`parents, this`digests, this`payloadSize, this`timerExpired, this`created
      ensures Valid() && Proposes(old(View()), View())
      ensures created != old(created) <==>
                && old(parents) != {} && (old(timerExpired) || 32 * |old(digests)| >= headerSize)
                && (shortfin && round >= 2 ==> lastQc.Some?)
    {
      hide Ordered, CarryQcs, SoundHeaders, WellKeyed, Payloads, Fills, PreviousQc;
      var enoughParents := parents != {};
      var enoughQc := !shortfin || round < 2 || lastQc.Some?;
      var ready := timerExpired || payloadSize >= headerSize;
      if ready && enoughParents && enoughQc {
        ghost var before := View();
        MakeHeader();
        timerExpired := false;
        assert CreatesHeader(before, created[|before.created|], View()) by {
          assert created == before.created + [created[|before.created|]];
        }
      }
    }

    method MakeHeader()
      requires Valid() && parents != {} && (shortfin ==> round < 2 || lastQc.Some?)
      modifies this`parents, this`digests, this`payloadSize, this`created
      ensures Valid() && parents == {}
      ensures |created| == |old(created)| + 1 && created[..|old(created)|] == old(created)
      ensures var p := created[|old(created)|];
              && p.round == round && p.parents == old(parents) && p.qc == (if shortfin then lastQc else None)
              && Fills(p.payload, old(digests), headerSize)
      ensures digests == old(digests)[|created[|old(created)|].payload|..]
    {
      hide Ordered, CarryQcs, SoundHeaders, WellKeyed, Payloads, SaturatingSub;
      var take := TakeCount(|digests|, headerSize);
      var header := Proposal(round, digests[..take], parents, if shortfin then lastQc else None);
      HeaderAppended(shortfin, created, header);
      DigestsTaken(created, header, digests, take);
      digests := digests[take..];
      payloadSize := SaturatingSub(payloadSize, DIGEST_SIZE * take);
      parents := {};
      created := created + [header];
    }

    /** The proposer takes the oldest signal. */
    method ReceiveSignal()
      requires Valid() && channel != []
      modifies this`channel, this`round, this`parents, this`lastQc
      ensures Valid() && channel == old(channel)[1..]
      ensures var signal := old(channel)[0];
              && round == signal.round
              && parents == (if !shortfin || signal.parents != {} then signal.parents else old(parents))
              && lastQc == (if shortfin && signal.qc.Some? then signal.qc else old(lastQc))
    {
      var signal := channel[0];
      channel := channel[1..];
      if signal.round < round {
        return;
      }
      round := signal.round;
      if !shortfin || signal.parents != {} {
        parents := signal.parents;
      }
      if shortfin && signal.qc.Some? {
        lastQc := signal.qc;
      }
    }

    method ReceiveDigest(digest: Digest)
      requires Valid()
      modifies this`payloadSize, this`digests, this`received
      ensures Valid() && digests == old(digests) + [digest] && received == old(received) + [digest]
      ensures payloadSize == old(payloadSize) + 32
    {
      payloadSize := payloadSize + DIGEST_SIZE;
      digests := digests + [digest];
      received := received + [digest];
    }

    method TimerExpires()
      requires Valid()
      modifies this`timerExpired
      ensures Valid() && timerExpired
    {
      timerExpired := true;
    }
  }

  /** The digests received from the workers, in order. */
  ghost function BatchDigests(events: seq<Event>): seq<Digest> {
    if events == [] then []
    else
      var e := events[|events| - 1];
      BatchDigests(events[..|events| - 1]) + if e.BatchDigest? then [e.digest] else []
  }

  lemma BatchDigestsNext(events: seq<Event>, i: nat)
    requires i < |events|
    ensures BatchDigests(events[..i + 1]) ==
            BatchDigests(events[..i]) + if events[i].BatchDigest? then [events[i].digest] else []
  {
    assert events[..i + 1][..i] == events[..i];
  }

  /** One event and the look at the gate that follows. */
  method TakeTurn(pipe: Pipe, e: Event)
    requires pipe.Valid()
    modifies pipe
    ensures pipe.Valid() && pipe.Turn(old(pipe.View()), e, pipe.View())
    ensures pipe.received == old(pipe.received) + if e.BatchDigest? then [e.digest] else []
  {
    hide Ordered, CarryQcs, SoundHeaders, WellKeyed, Payloads, Pipe.Signalled, Pipe.Proposes, PreviousQc;
    ghost var before := pipe.View();
    match e {
      case Certificate(c) => pipe.Observe(c);
      case Collect(r) => pipe.Cleanup(r);
      case LateQc(c) => pipe.SendQcSignal(c);
      case TakeSignal =>
        if pipe.channel != [] { pipe.ReceiveSignal(); }
      case BatchDigest(d) => pipe.ReceiveDigest(d);
      case Timer => pipe.TimerExpires();
    }
    ghost var middle := pipe.View();
    assert pipe.Reacts(before, e, middle);
    pipe.TryPropose();
  }

  /** Every interleaving of certificates, collections, signals, batches and timer, event by event: the
      headers created have strictly increasing rounds, Shortfin headers above round 1 embed a QC of
      the round before, and the payloads are the received digests in order, none lost or repeated. */
  method RunPipe(pipe: Pipe, events: seq<Event>)
    requires pipe.Valid()
    modifies pipe
    ensures pipe.Valid() && pipe.Plays(old(pipe.View()), events, pipe.View())
    ensures IncreasingRounds(pipe.created)
    ensures pipe.shortfin ==>
              forall i :: 0 <= i < |pipe.created| && pipe.created[i].round >= 2 ==>
                PreviousQc(pipe.created[i].qc, pipe.created[i].round)
    ensures pipe.received == old(pipe.received) + BatchDigests(events)
    ensures pipe.received == Payloads(pipe.created) + pipe.digests
  {
    hide Pipe.Valid, Pipe.Turn, Pipe.Turns, Pipe.Proposes, PreviousQc, IncreasingRounds, Payloads, BatchDigests;
    ghost var first := pipe.View();
    pipe.TryPropose();
    ghost var start := pipe.View();
    pipe.NoTurns(start, events[..0]);
    NoDigests(events[..0]);
    var i := 0;
    while i < |events|
      invariant 0 <= i <= |events| && pipe.Valid() && pipe.Turns(start, events[..i], pipe.View())
      invariant pipe.received == old(pipe.received) + BatchDigests(events[..i])
    {
      ghost var before := pipe.View();
      TakeTurn(pipe, events[i]);
      pipe.TurnsNext(start, events[..i], before, events[i], pipe.View());
      BatchDigestsNext(events, i);
      assert events[..i] + [events[i]] == events[..i + 1];
      i := i + 1;
    }
    assert events[..i] == events;
    assert pipe.Proposes(first, start) && pipe.Turns(start, events, pipe.View());
    RunFacts(pipe);
  }

  lemma NoDigests(events: seq<Event>)
    requires events == []
    ensures BatchDigests(events) == []
  {
  }

  lemma RunFacts(pipe: Pipe)
    requires pipe.Valid()
    ensures IncreasingRounds(pipe.created) && pipe.received == Payloads(pipe.created) + pipe.digests
    ensures pipe.shortfin ==>
              forall i :: 0 <= i < |pipe.created| && pipe.created[i].round >= 2 ==>
                PreviousQc(pipe.created[i].qc, pipe.created[i].round)
  {
  }
}
