/** The primary's three-state Shortfin records and their delivery to consensus. */
module RecordMachine {
  import opened Quorums
  import opened ConsensusState

  datatype BlockState = Bubble | Uncertificated | Certificated

  function Rank(s: Option<BlockState>): nat {
    match s
    case None => 0
    case Some(Bubble) => 1
    case Some(Uncertificated) => 2
    case Some(Certificated) => 3
  }

  function Restrict<V>(m: map<Digest, V>, live: set<Digest>): (r: map<Digest, V>)
    ensures forall d :: d in r <==> d in m && d in live
    ensures forall d :: d in r ==> r[d] == m[d]
  {
    map d | d in m && d in live :: m[d]
  }

  datatype Change = Accept(header: Header) | Learn(id: Digest, votes: seq<Vote>) | Validate(id: Digest)
    | HandOver(id: Digest)

  /** The tables of the record machine. */
  datatype Tables = Tables(states: map<Digest, BlockState>, qcs: map<Digest, seq<Vote>>, headers: map<Digest, Header>,
                           structuralSent: set<Digest>, certifiedSent: set<Digest>)

  /** A record can be handed over: it is known, and in a form that has not been. */
  predicate Due(t: Tables, id: Digest) {
    && id in t.states && id in t.headers
    && (id !in t.structuralSent || (t.states[id] == Certificated && id !in t.certifiedSent))
  }

  function Changed(t: Tables, change: Change): Tables {
    match change
    case Accept(h) =>
      t.(headers := t.headers[h.id := h],
         states := if h.id in t.states then t.states else t.states[h.id := Bubble])
    case Learn(id, votes) =>
      t.(qcs := if id in t.qcs then t.qcs else t.qcs[id := votes],
         states := if id in t.states && t.states[id] == Uncertificated then t.states[id := Certificated] else t.states)
    case Validate(id) =>
      t.(states := t.states[id := if id in t.qcs then Certificated else Uncertificated])
    case HandOver(id) =>
      if !Due(t, id) then t
      else t.(structuralSent := t.structuralSent + {id},
              certifiedSent := t.certifiedSent + if t.states[id] == Certificated then {id} else {})
  }

  /** What a change hands to consensus: exactly the records that are due. */
  function Sent(t: Tables, change: Change): seq<Certificate> {
    match change
    case HandOver(id) =>
      if !Due(t, id) then []
      else [Certificate(t.headers[id], if t.states[id] == Certificated && id in t.qcs then t.qcs[id] else [])]
    case _ => []
  }

  function AllChanged(t: Tables, changes: seq<Change>): Tables {
    if changes == [] then t else Changed(AllChanged(t, changes[..|changes| - 1]), changes[|changes| - 1])
  }

  function AllSent(t: Tables, changes: seq<Change>): seq<Certificate> {
    if changes == [] then []
    else
      var front := changes[..|changes| - 1];
      AllSent(t, front) + Sent(AllChanged(t, front), changes[|changes| - 1])
  }

  class Records {
    var states: map<Digest, BlockState>
    var qcs: map<Digest, seq<Vote>>
    var headers: map<Digest, Header>
    var structuralSent: set<Digest>
    var certifiedSent: set<Digest>
    /** Records whose payload has been validated. */
    ghost var marked: set<Digest>
    /** How often each record has been handed over since it was last swept, by form. */
    ghost var structuralCount: map<Digest, nat>
    ghost var certifiedCount: map<Digest, nat>

    ghost function View(): Tables
      reads this
    {
      Tables(states, qcs, headers, structuralSent, certifiedSent)
    }

    ghost function StateOf(id: Digest): Option<BlockState>
      reads this
    {
      if id in states then Some(states[id]) else None
    }

    ghost function Count(m: map<Digest, nat>, id: Digest): nat { if id in m then m[id] else 0 }

    /** Certificated exactly when the payload is marked and a QC is known; at most one structural
        and one certified hand-over. */
    ghost predicate Valid()
      reads this
    {
      && (forall id :: id in states ==>
            && (states[id] != Bubble <==> id in marked)
            && (states[id] == Certificated <==> id in marked && id in qcs))
      && (forall id :: id in headers ==> headers[id].id == id) && (forall id :: id in qcs ==> qcs[id] != [])
      && marked <= states.Keys && certifiedSent <= structuralSent
      && (forall id :: Count(certifiedCount, id) == (if id in certifiedSent then 1 else 0))
      && (forall id :: Count(structuralCount, id) + Count(certifiedCount, id) <= 2)
      && (forall id :: Count(structuralCount, id) <= (if id in structuralSent then 1 else 0))
    }

    constructor ()
      ensures Valid() && states == map[] && qcs == map[] && structuralSent == {} && headers == map[]
    {
      states, qcs, headers, structuralSent, certifiedSent := map[], map[], map[], {}, {};
      marked, structuralCount, certifiedCount := {}, map[], map[];
    }

    /** A header has been accepted; its payload may still be missing. */
    method AddBubble(header: Header)
      requires Valid()
      modifies this`states, this`headers
      ensures Valid() && headers == old(headers)[header.id := header]
      ensures states == if header.id in old(states) then old(states) else old(states)[header.id := Bubble]
    {
      headers := headers[header.id := header];
      if header.id !in states {
        states := states[header.id := Bubble];
      }
    }

    /** The first QC learned for a record is kept.  Callers pass verified, hence non-empty, votes. */
    method RecordQc(id: Digest, votes: seq<Vote>)
      requires Valid() && votes != []
      modifies this`states, this`qcs
      ensures Valid()
      ensures qcs == if id in old(qcs) then old(qcs) else old(qcs)[id := votes]
      ensures states == if old(StateOf(id)) == Some(Uncertificated)
                then old(states)[id := Certificated] else old(states)
      ensures forall d :: Rank(StateOf(d)) >= Rank(old(StateOf(d)))
    {
      if id !in qcs {
        qcs := qcs[id := votes];
      }
      if id in states && states[id] == Uncertificated {
        states := states[id := Certificated];
      }
    }

    /** The payload of a record has been validated. */
    method MarkPayload(id: Digest)
      requires Valid()
      modifies this`states, this`marked
      ensures Valid() && marked == old(marked) + {id}
      ensures states == old(states)[id := if id in qcs then Certificated else Uncertificated]
      ensures forall d :: Rank(StateOf(d)) >= Rank(old(StateOf(d)))
    {
      states := states[id := if id in qcs then Certificated else Uncertificated];
      marked := marked + {id};
    }

    /** Hand a record to consensus, unless that form has been handed over.  A certified record
        carries its QC votes, a structural one carries none. */
    method Emit(id: Digest) returns (certificate: Option<Certificate>)
      requires Valid()
      modifies this`structuralSent, this`certifiedSent, this`structuralCount, this`certifiedCount
      ensures Valid()
      ensures certificate.Some? <==>
                id in states && id in headers
                && (id !in old(structuralSent) || (states[id] == Certificated && id !in old(certifiedSent)))
      ensures certificate.Some? ==>
                && certificate.value == Certificate(headers[id], if states[id] == Certificated then qcs[id] else [])
                && structuralSent == old(structuralSent) + {id}
                && certifiedSent == old(certifiedSent) + (if states[id] == Certificated then {id} else {})
      ensures certificate == None ==> structuralSent == old(structuralSent) && certifiedSent == old(certifiedSent)
      ensures forall d :: Count(certifiedCount, d) == old(Count(certifiedCount, d))
                + (if d == id && certificate.Some? && states[id] == Certificated then 1 else 0)
      ensures forall d :: Count(structuralCount, d) == old(Count(structuralCount, d))
                + (if d == id && certificate.Some? && states[id] != Certificated then 1 else 0)
    {
      if id !in states || id !in headers {
        return None;
      }
      var certificated := states[id] == Certificated;
      var firstDelivery := id !in structuralSent;
      var upgrade := certificated && id !in certifiedSent;
      if !firstDelivery && !upgrade {
        return None;
      }
      structuralSent := structuralSent + {id};
      if certificated {
        certifiedSent := certifiedSent + {id};
        certifiedCount := certifiedCount[id := Count(certifiedCount, id) + 1];
      } else {
        structuralCount := structuralCount[id := Count(structuralCount, id) + 1];
      }
      return Some(Certificate(headers[id], if certificated then qcs[id] else []));
    }

    /** Garbage collection forgets everything about records outside `live`. */
    method Sweep(live: set<Digest>)
      requires Valid()
      modifies this
      ensures Valid()
      ensures states == Restrict(old(states), live) && qcs == Restrict(old(qcs), live)
      ensures headers == Restrict(old(headers), live)
      ensures structuralSent == old(structuralSent) * live && certifiedSent == old(certifiedSent) * live
      ensures forall id :: id in live ==>
                Count(structuralCount, id) == old(Count(structuralCount, id))
                && Count(certifiedCount, id) == old(Count(certifiedCount, id))
    {
      ghost var structural, certified := structuralCount, certifiedCount;
      states, qcs, headers := Restrict(states, live), Restrict(qcs, live), Restrict(headers, live);
      structuralSent, certifiedSent := structuralSent * live, certifiedSent * live;
      marked := marked * live;
      structuralCount, certifiedCount := Restrict(structuralCount, live), Restrict(certifiedCount, live);
      forall id ensures Count(structuralCount, id) == (if id in live then Count(structural, id) else 0)
                        && Count(certifiedCount, id) == (if id in live then Count(certified, id) else 0) {}
    }
  }

  /** Over any run between two sweeps: the tables and the hand-overs are those of the changes, one by
      one; no record loses rank, none that is certificated changes state, and consensus receives each
      record at most once without votes and at most once with. */
  method RunRecords(records: Records, changes: seq<Change>) returns (sent: seq<Certificate>)
    requires records.Valid() && forall i :: 0 <= i < |changes| && changes[i].Learn? ==> changes[i].votes != []
    modifies records
    ensures records.Valid()
    ensures records.View() == AllChanged(old(records.View()), changes) && sent == AllSent(old(records.View()), changes)
    ensures forall id :: Rank(records.StateOf(id)) >= Rank(old(records.StateOf(id)))
    ensures forall id :: HandedOver(sent, id, true) + old(records.Count(records.certifiedCount, id)) <= 1
    ensures forall id :: HandedOver(sent, id, false) + old(records.Count(records.structuralCount, id)) <= 1
  {
    hide Changed, Sent;
    ghost var start := records.View();
    sent := [];
    var i := 0;
    while i < |changes|
      invariant 0 <= i <= |changes| && records.Valid()
      invariant records.View() == AllChanged(start, changes[..i]) && sent == AllSent(start, changes[..i])
      invariant forall id :: Rank(records.StateOf(id)) >= Rank(old(records.StateOf(id)))
      invariant forall id :: HandedOver(sent, id, true) + old(records.Count(records.certifiedCount, id))
                             == records.Count(records.certifiedCount, id)
      invariant forall id :: HandedOver(sent, id, false) + old(records.Count(records.structuralCount, id))
                             == records.Count(records.structuralCount, id)
    {
      assert changes[..i + 1][..i] == changes[..i];
      var c := Apply(records, changes[i]);
      if c.Some? {
        HandedOverNext(sent, c.value);
        sent := sent + [c.value];
      }
      i := i + 1;
    }
    assert changes[..i] == changes;
  }

  method Apply(records: Records, change: Change) returns (c: Option<Certificate>)
    requires records.Valid() && (change.Learn? ==> change.votes != [])
    modifies records
    ensures records.Valid() && records.View() == Changed(old(records.View()), change)
    ensures Sent(old(records.View()), change) == if c.Some? then [c.value] else []
    ensures forall id :: Rank(records.StateOf(id)) >= Rank(old(records.StateOf(id)))
    ensures forall id :: records.Count(records.certifiedCount, id) == old(records.Count(records.certifiedCount, id))
              + (if c.Some? && c.value.Digest() == id && c.value.votes != [] then 1 else 0)
    ensures forall id :: records.Count(records.structuralCount, id) == old(records.Count(records.structuralCount, id))
              + (if c.Some? && c.value.Digest() == id && c.value.votes == [] then 1 else 0)
  {
    c := None;
    match change
    case Accept(h) => records.AddBubble(h);
    case Learn(id, votes) => records.RecordQc(id, votes);
    case Validate(id) => records.MarkPayload(id);
    case HandOver(id) => c := records.Emit(id);
  }

  lemma HandedOverNext(sent: seq<Certificate>, c: Certificate)
    ensures forall id, certified :: HandedOver(sent + [c], id, certified) ==
              HandedOver(sent, id, certified) + (if c.Digest() == id && (c.votes != []) == certified then 1 else 0)
  {
    assert (sent + [c])[..|sent|] == sent;
  }

  /** How many of the sent certificates are for `id`, with or without votes. */
  ghost function HandedOver(sent: seq<Certificate>, id: Digest, certified: bool): nat {
    if sent == [] then 0
    else
      var last := sent[|sent| - 1];
      HandedOver(sent[..|sent| - 1], id, certified)
      + (if last.Digest() == id && (last.votes != []) == certified then 1 else 0)
  }
}
