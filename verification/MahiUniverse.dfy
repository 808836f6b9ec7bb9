/** The checks of the primary make the accepted Mahi-Mahi blocks a universe. */
module MahiUniverse {
  import opened Quorums
  import opened MahiGraph
  import opened MahiSafety
  import opened Messages
  import CS = ConsensusState

  /** The certificates are those of the block's parents, all of them accepted. */
  ghost predicate ParentsOf(u: Graph, d: Digest, parents: seq<CS.Certificate>)
    requires d in u
  {
    && |parents| == |u[d].parents|
    && forall i :: 0 <= i < |parents| ==>
         && parents[i].Digest() == u[d].parents[i] && parents[i].Digest() in u
         && u[parents[i].Digest()].round == parents[i].Round() && u[parents[i].Digest()].author == parents[i].Origin()
  }

  /** A block as the primary accepts it: genesis, or one whose history is there and whose parents
      pass the check. */
  ghost predicate BlockAccepted(c: Committee, u: Graph, d: Digest)
    requires d in u
  {
    if u[d].round == 0 then u[d].parents == []
    else exists parents :: ParentsOf(u, d, parents) && MahiParents(c, u[d].round, parents)
  }

  lemma ParentsLower(c: Committee, u: Graph, d: Digest, parents: seq<CS.Certificate>)
    requires d in u && ParentsOf(u, d, parents) && MahiParents(c, u[d].round, parents)
    ensures forall p :: p in u[d].parents ==> p in u && u[p].round < u[d].round
  {
    hide Committee.Weight, Committee.QuorumThreshold, PreviousAuthors;
    forall p | p in u[d].parents ensures p in u && u[p].round < u[d].round {
      var i :| 0 <= i < |u[d].parents| && u[d].parents[i] == p;
      assert parents[i] in parents;
    }
  }

  lemma PreviousAreStrong(u: Graph, d: Digest, parents: seq<CS.Certificate>)
    requires d in u && ParentsOf(u, d, parents)
    ensures PreviousAuthors(u[d].round, parents) <= StrongAuthors(u, d)
  {
    forall a | a in PreviousAuthors(u[d].round, parents) ensures a in StrongAuthors(u, d) {
      var x :| x in parents && x.Round() + 1 == u[d].round && x.Origin() == a;
      var i :| 0 <= i < |parents| && parents[i] == x;
      assert u[d].parents[i] in u[d].parents;
    }
  }

  lemma AcceptedBlock(c: Committee, u: Graph, d: Digest)
    requires d in u && BlockAccepted(c, u, d)
    ensures forall p :: p in u[d].parents ==> p in u && u[p].round < u[d].round
    ensures u[d].round > 0 ==> c.Weight(StrongAuthors(u, d)) >= c.QuorumThreshold()
  {
    hide Committee.Weight, Committee.QuorumThreshold, ParentsOf, StrongAuthors, PreviousAuthors;
    if u[d].round > 0 {
      var parents: seq<CS.Certificate> :| ParentsOf(u, d, parents) && MahiParents(c, u[d].round, parents);
      ParentsLower(c, u, d, parents);
      PreviousAreStrong(u, d, parents);
      WeightMonotone(c, PreviousAuthors(u[d].round, parents), StrongAuthors(u, d));
    }
  }

  /** BlockAccepted blocks, of which only authors within the fault bound equivocate, are a universe. */
  lemma AcceptedIsUniverse(c: Committee, u: Graph, byz: set<Author>)
    requires forall d :: d in u ==> BlockAccepted(c, u, d)
    requires c.Weight(byz) < c.ValidityThreshold()
    requires forall d, e ::
               d in u && e in u && u[d].author == u[e].author && u[d].author !in byz && u[d].round == u[e].round ==>
                   d == e
    ensures Universe(c, u, byz)
  {
    hide BlockAccepted, Committee.Weight, Committee.QuorumThreshold, Committee.ValidityThreshold, StrongAuthors;
    forall d | d in u
      ensures forall p :: p in u[d].parents ==> p in u && u[p].round < u[d].round
      ensures u[d].round > 0 ==> c.Weight(StrongAuthors(u, d)) >= c.QuorumThreshold()
    {
      AcceptedBlock(c, u, d);
    }
  }
}
