/** The output order of the Mahi-Mahi committer: batches of unemitted history, each sorted by
    (round, author, digest), concatenated in slot order. */
module MahiOrder {
  import opened Quorums
  import opened MahiGraph
  import opened MahiSafety
  import opened Sorting

  /** Blocks are ordered by round, then author, then digest. */
  function OrderOf(g: Graph): Key { d => if d in g then (g[d].round, g[d].author) else (0, 0) }

  // ---------------------------------------------------------------- batches

  /** The causal history of a block, itself included. */
  ghost function History(g: Graph, l: Digest): set<Digest>
    requires RoundsDescend(g)
  {
    set d | d in g && Linked(g, l, d) == Some(true)
  }

  ghost function Batch(g: Graph, l: Digest, emitted: set<Digest>): seq<Digest>
    requires RoundsDescend(g)
  {
    Sorted(OrderOf(g), History(g, l) - emitted)
  }

  /** Closed under parents within the graph. */
  ghost predicate CausallyClosed(g: Graph, s: set<Digest>) {
    forall d, p :: d in s && d in g && p in g[d].parents ==> p in s
  }

  lemma {:induction false} PathStaysInside(g: Graph, s: set<Digest>, from: Digest, to: Digest)
    requires RoundsDescend(g) && CausallyClosed(g, s) && from in s
    requires Linked(g, from, to) == Some(true)
    ensures to in s
    decreases RoundOf(g, from)
  {
    if from != to {
      var p :| p in g[from].parents && p in g && g[p].round >= g[to].round && Linked(g, p, to) == Some(true);
      PathStaysInside(g, s, p, to);
    }
  }

  lemma HistoryClosed(g: Graph, l: Digest)
    requires RoundsDescend(g) && Closed(g) && l in g
    ensures CausallyClosed(g, History(g, l))
  {
    forall d, p | d in History(g, l) && p in g[d].parents ensures p in History(g, l) {
      ParentLinked(g, d, p);
      LinkedTransitive(g, l, d, p);
    }
  }

  /** A block's history is the same in every view that holds the block. */
  lemma HistorySame(g: Graph, u: Graph, l: Digest)
    requires View(g, u) && RoundsDescend(u) && l in g
    ensures History(g, l) == History(u, l)
  {
    forall d | d in History(g, l) ensures d in History(u, l) { LinkedStable(g, u, l, d); }
    forall d | d in History(u, l) ensures d in History(g, l) { LinkedStaysInside(g, u, l, d); }
  }

  // ---------------------------------------------------------------- the stream

  /** The stream after the first `n` slots. */
  ghost function Stream(g: Graph, genesis: set<Digest>, ds: Decisions, n: nat): seq<Digest>
    requires RoundsDescend(g)
  {
    if n == 0 then []
    else
      var before := Stream(g, genesis, ds, n - 1);
      before + SlotBatch(g, genesis + Elems(before), ds, n - 1)
  }

  /** What the `n`-th slot adds. */
  ghost function SlotBatch(g: Graph, emitted: set<Digest>, ds: Decisions, n: nat): seq<Digest>
    requires RoundsDescend(g)
  {
    if SlotAt(n) in ds && ds[SlotAt(n)].Commit? then Batch(g, ds[SlotAt(n)].leader, emitted) else []
  }

  /** The first `n` slots are decided, and their leaders have arrived. */
  ghost predicate DecidedPrefix(g: Graph, ds: Decisions, n: nat) {
    forall k :: 0 <= k < n ==>
      && SlotAt(k) in ds && ds[SlotAt(k)] != Undecided
      && (ds[SlotAt(k)].Commit? ==> ds[SlotAt(k)].leader in g)
  }

  lemma {:induction false} StreamPrefix(g: Graph, genesis: set<Digest>, ds: Decisions, n: nat, m: nat)
    requires RoundsDescend(g) && n <= m
    ensures Stream(g, genesis, ds, n) <= Stream(g, genesis, ds, m)
    decreases m
  {
    if n < m { StreamPrefix(g, genesis, ds, n, m - 1); }
  }

  /** The stream does not depend on how much more the view holds. */
  lemma {:induction false} StreamSame(g: Graph, u: Graph, genesis: set<Digest>, ds: Decisions, n: nat)
    requires View(g, u) && RoundsDescend(u) && DecidedPrefix(g, ds, n)
    ensures Stream(g, genesis, ds, n) == Stream(u, genesis, ds, n)
  {
    hide SlotBatch, SlotAt, Closed, Extends, RoundsDescend, Elems;
    if n > 0 {
      StreamSame(g, u, genesis, ds, n - 1);
      SlotBatchSame(g, u, genesis + Elems(Stream(g, genesis, ds, n - 1)), ds, n - 1);
    }
  }

  lemma SlotBatchSame(g: Graph, u: Graph, emitted: set<Digest>, ds: Decisions, n: nat)
    requires View(g, u) && RoundsDescend(u) && DecidedPrefix(g, ds, n + 1)
    ensures SlotBatch(g, emitted, ds, n) == SlotBatch(u, emitted, ds, n)
  {
    hide Linked, History, Sorted, Closed;
    assert SlotAt(n) in ds;
    var d := ds[SlotAt(n)];
    if d.Commit? {
      HistorySame(g, u, d.leader);
      HistoryInside(g, d.leader);
      SortedSame(OrderOf(g), OrderOf(u), History(g, d.leader) - emitted);
    }
  }

  lemma HistoryInside(g: Graph, l: Digest)
    requires RoundsDescend(g)
    ensures History(g, l) <= g.Keys
  {
  }

  lemma {:induction false} StreamByDecisions(g: Graph, genesis: set<Digest>, d1: Decisions, d2: Decisions, n: nat)
    requires RoundsDescend(g) && DecidedPrefix(g, d1, n) && DecidedPrefix(g, d2, n)
    requires forall k :: 0 <= k < n ==> d1[SlotAt(k)] == d2[SlotAt(k)]
    ensures Stream(g, genesis, d1, n) == Stream(g, genesis, d2, n)
  {
    if n > 0 { StreamByDecisions(g, genesis, d1, d2, n - 1); }
  }

  // ---------------------------------------------------------------- duplicate-free and causal

  /** Every parent of an emitted block is a genesis block or was emitted before it. */
  ghost predicate CausalOrder(g: Graph, genesis: set<Digest>, xs: seq<Digest>) {
    forall i, p :: 0 <= i < |xs| && xs[i] in g && p in g[xs[i]].parents ==> p in genesis || p in xs[..i]
  }

  lemma BatchCausal(g: Graph, l: Digest, emitted: set<Digest>)
    requires RoundsDescend(g) && Closed(g) && l in g && CausallyClosed(g, emitted)
    ensures CausalOrder(g, emitted, Batch(g, l, emitted))
    ensures Distinct(Batch(g, l, emitted))
    ensures Elems(Batch(g, l, emitted)) == History(g, l) - emitted
    ensures CausallyClosed(g, emitted + Elems(Batch(g, l, emitted)))
  {
    var xs := Batch(g, l, emitted);
    SortedInOrder(OrderOf(g), History(g, l) - emitted);
    HistoryClosed(g, l);
    forall i, p | 0 <= i < |xs| && xs[i] in g && p in g[xs[i]].parents && p !in emitted
      ensures p in xs[..i]
    {
      assert xs[i] in Elems(xs);
      assert p in Elems(xs);
      var j :| 0 <= j < |xs| && xs[j] == p;
      assert g[xs[j]].round < g[xs[i]].round;
      assert j < i;
    }
  }

  /** Ascending by round, then author, then digest. */
  ghost predicate ByRoundAuthorDigest(g: Graph, xs: seq<Digest>) {
    forall i, j :: 0 <= i < j < |xs| ==>
      && xs[i] in g && xs[j] in g
      && (|| g[xs[i]].round < g[xs[j]].round
          || (g[xs[i]].round == g[xs[j]].round && g[xs[i]].author < g[xs[j]].author)
          || (g[xs[i]].round == g[xs[j]].round && g[xs[i]].author == g[xs[j]].author && xs[i] < xs[j]))
  }

  /** A batch on blocks and paths: what the leader reaches and was not emitted, ascending by round, then
      author, then digest. */
  lemma BatchMeans(g: Graph, l: Digest, emitted: set<Digest>)
    requires RoundsDescend(g)
    ensures forall d :: d in Batch(g, l, emitted) <==> d in g && d !in emitted && exists xs :: Path(g, xs, l, d)
    ensures ByRoundAuthorDigest(g, Batch(g, l, emitted))
    ensures forall i, j :: 0 <= i < j < |Batch(g, l, emitted)| ==>
              var x, y := Batch(g, l, emitted)[i], Batch(g, l, emitted)[j];
              && x in g && y in g
              && (|| g[x].round < g[y].round
                  || (g[x].round == g[y].round && g[x].author < g[y].author)
                  || (g[x].round == g[y].round && g[x].author == g[y].author && x < y))
  {
    hide Path, Linked, Sorted;
    var xs := Batch(g, l, emitted);
    SortedInOrder(OrderOf(g), History(g, l) - emitted);
    SortedElems(OrderOf(g), History(g, l) - emitted);
    forall d ensures Linked(g, l, d) == Some(true) <==> exists zs :: Path(g, zs, l, d) { LinkedIffPath(g, l, d); }
    forall i, j | 0 <= i < j < |xs| ensures xs[i] in g && xs[j] in g && Before(OrderOf(g), xs[i], xs[j]) {
      assert xs[i] in xs && xs[j] in xs;
    }
  }

  lemma CausalConcat(g: Graph, genesis: set<Digest>, xs: seq<Digest>, ys: seq<Digest>)
    requires CausalOrder(g, genesis, xs) && CausalOrder(g, genesis + Elems(xs), ys)
    ensures CausalOrder(g, genesis, xs + ys)
  {
    var zs := xs + ys;
    forall i, p | 0 <= i < |zs| && zs[i] in g && p in g[zs[i]].parents && p !in genesis ensures p in zs[..i] {
      if i < |xs| {
        assert zs[i] == xs[i] && zs[..i] == xs[..i];
        assert p in xs[..i];
      } else {
        var j := i - |xs|;
        assert zs[i] == ys[j] && zs[..i] == xs + ys[..j];
        assert p in g[ys[j]].parents;
        assert p in genesis + Elems(xs) || p in ys[..j];
      }
    }
  }

  lemma DistinctConcat(xs: seq<Digest>, ys: seq<Digest>)
    requires Distinct(xs) && Distinct(ys) && Elems(xs) !! Elems(ys)
    ensures Distinct(xs + ys)
  {
    forall i, j | 0 <= i < j < |xs + ys| ensures (xs + ys)[i] != (xs + ys)[j] {
      if i < |xs| <= j {
        assert xs[i] in Elems(xs) && ys[j - |xs|] in Elems(ys);
      }
    }
  }

  lemma ElemsConcat(xs: seq<Digest>, ys: seq<Digest>)
    ensures Elems(xs + ys) == Elems(xs) + Elems(ys)
  {
  }

  /** A sound stream repeats nothing, never emits genesis, and respects causality; what is
      emitted, with genesis, is causally closed. */
  ghost predicate SoundStream(g: Graph, genesis: set<Digest>, xs: seq<Digest>) {
    && Distinct(xs) && Elems(xs) !! genesis
    && CausalOrder(g, genesis, xs)
    && CausallyClosed(g, genesis + Elems(xs))
  }

  lemma BatchKeepsSound(g: Graph, genesis: set<Digest>, xs: seq<Digest>, l: Digest)
    requires RoundsDescend(g) && Closed(g) && l in g && SoundStream(g, genesis, xs)
    ensures var ys := xs + Batch(g, l, genesis + Elems(xs));
            SoundStream(g, genesis, ys) && History(g, l) <= genesis + Elems(ys)
  {
    var emitted := genesis + Elems(xs);
    var batch := Batch(g, l, emitted);
    BatchCausal(g, l, emitted);
    CausalConcat(g, genesis, xs, batch);
    DistinctConcat(xs, batch);
    ElemsConcat(xs, batch);
    assert genesis + Elems(xs + batch) == emitted + Elems(batch);
  }

  /** Over a whole run the stream is sound and holds the history of every committed leader. */
  lemma {:induction false} StreamSound(g: Graph, genesis: set<Digest>, ds: Decisions, n: nat)
    requires RoundsDescend(g) && Closed(g) && DecidedPrefix(g, ds, n) && CausallyClosed(g, genesis)
    ensures SoundStream(g, genesis, Stream(g, genesis, ds, n))
    ensures forall k :: 0 <= k < n && ds[SlotAt(k)].Commit? ==>
              History(g, ds[SlotAt(k)].leader) <= genesis + Elems(Stream(g, genesis, ds, n))
  {
    hide History, Batch, Closed, RoundsDescend, CausallyClosed, CausalOrder, Distinct;
    if n == 0 {
      assert genesis + Elems([]) == genesis;
      EmptyStreamSound(g, genesis);
    } else {
      StreamSound(g, genesis, ds, n - 1);
      var before := Stream(g, genesis, ds, n - 1);
      var batch := SlotBatch(g, genesis + Elems(before), ds, n - 1);
      assert SlotAt(n - 1) in ds;
      var d := ds[SlotAt(n - 1)];
      ElemsConcat(before, batch);
      if d.Commit? {
        BatchKeepsSound(g, genesis, before, d.leader);
      } else {
        assert before + batch == before;
      }
    }
  }

  /** Everything emitted is in the history of a committed leader. */
  lemma {:induction false} StreamOrigin(g: Graph, genesis: set<Digest>, ds: Decisions, n: nat, x: Digest)
    requires RoundsDescend(g) && DecidedPrefix(g, ds, n) && x in Stream(g, genesis, ds, n)
    ensures exists k :: 0 <= k < n && ds[SlotAt(k)].Commit? && x in History(g, ds[SlotAt(k)].leader)
  {
    hide History, Sorted, RoundsDescend;
    assert SlotAt(n - 1) in ds;
    var before := Stream(g, genesis, ds, n - 1);
    if x in before {
      StreamOrigin(g, genesis, ds, n - 1, x);
    } else {
      HistoryInside(g, ds[SlotAt(n - 1)].leader);
      SortedElems(OrderOf(g), History(g, ds[SlotAt(n - 1)].leader) - (genesis + Elems(before)));
    }
  }

  /** The order of the whole output, on blocks and paths: of two emitted blocks the earlier is reached by
      a committed slot before which no committed slot reaches the later, and if that slot reaches both
      they are in order of round, author and digest. */
  lemma {:induction false} StreamOrder(g: Graph, genesis: set<Digest>, ds: Decisions, n: nat, i: nat, j: nat)
    requires RoundsDescend(g) && Closed(g) && DecidedPrefix(g, ds, n) && CausallyClosed(g, genesis)
    requires i < j < |Stream(g, genesis, ds, n)|
    ensures var x, y := Stream(g, genesis, ds, n)[i], Stream(g, genesis, ds, n)[j];
            exists k :: 0 <= k < n && ds[SlotAt(k)].Commit? && Orders(g, ds, k, x, y)
  {
    hide Closed, CausallyClosed, RoundsDescend, Orders, SlotBatch, SlotAt, Elems;
    var before := Stream(g, genesis, ds, n - 1);
    var batch := SlotBatch(g, genesis + Elems(before), ds, n - 1);
    assert SlotAt(n - 1) in ds;
    if j < |before| {
      StreamOrder(g, genesis, ds, n - 1, i, j);
    } else if i < |before| {
      OrdersLater(g, genesis, ds, n - 1, before[i], j - |before|);
    } else {
      OrdersSame(g, genesis, ds, n - 1, i - |before|, j - |before|);
    }
  }

  lemma OrdersLater(g: Graph, genesis: set<Digest>, ds: Decisions, n: nat, x: Digest, j: nat)
    requires RoundsDescend(g) && Closed(g) && DecidedPrefix(g, ds, n + 1) && CausallyClosed(g, genesis)
    requires var before := Stream(g, genesis, ds, n);
             x in before && j < |SlotBatch(g, genesis + Elems(before), ds, n)|
    ensures var y := SlotBatch(g, genesis + Elems(Stream(g, genesis, ds, n)), ds, n)[j];
            exists k :: 0 <= k < n && ds[SlotAt(k)].Commit? && Orders(g, ds, k, x, y)
  {
    hide Path, History, Linked, Batch, Closed, CausallyClosed, RoundsDescend, SoundStream, ByRoundAuthorDigest, SlotAt;
    hide Stream, Orders;
    var emitted := genesis + Elems(Stream(g, genesis, ds, n));
    assert SlotAt(n) in ds;
    var batch := SlotBatch(g, emitted, ds, n);
    BatchMeans(g, ds[SlotAt(n)].leader, emitted);
    assert batch[j] in batch;
    StreamSound(g, genesis, ds, n);
    UnreachedBefore(g, ds, n, emitted, batch[j]);
    StreamOrigin(g, genesis, ds, n, x);
    var k :| 0 <= k < n && ds[SlotAt(k)].Commit? && x in History(g, ds[SlotAt(k)].leader);
    OrdersAcross(g, ds, k, n, x, batch[j]);
  }

  lemma OrdersSame(g: Graph, genesis: set<Digest>, ds: Decisions, n: nat, i: nat, j: nat)
    requires RoundsDescend(g) && Closed(g) && DecidedPrefix(g, ds, n + 1) && CausallyClosed(g, genesis)
    requires i < j < |SlotBatch(g, genesis + Elems(Stream(g, genesis, ds, n)), ds, n)|
    ensures SlotAt(n) in ds && ds[SlotAt(n)].Commit?
    ensures var batch := SlotBatch(g, genesis + Elems(Stream(g, genesis, ds, n)), ds, n);
            Orders(g, ds, n, batch[i], batch[j])
  {
    hide Path, History, Linked, Batch, Closed, CausallyClosed, RoundsDescend, SoundStream, ByRoundAuthorDigest, SlotAt;
    hide Stream;
    var emitted := genesis + Elems(Stream(g, genesis, ds, n));
    assert SlotAt(n) in ds;
    var batch := SlotBatch(g, emitted, ds, n);
    BatchMeans(g, ds[SlotAt(n)].leader, emitted);
    assert batch[i] in batch && batch[j] in batch;
    StreamSound(g, genesis, ds, n);
    UnreachedBefore(g, ds, n, emitted, batch[j]);
  }

  /** Slot `k` reaches `x`, no committed slot before it reaches `y`, and if it reaches `y` too then `x`
      comes first by round, author and digest. */
  ghost predicate Orders(g: Graph, ds: Decisions, k: nat, x: Digest, y: Digest)
    requires SlotAt(k) in ds && ds[SlotAt(k)].Commit?
  {
    && x in g && y in g
    && (exists xs :: Path(g, xs, ds[SlotAt(k)].leader, x))
    && (forall m, xs :: 0 <= m < k && SlotAt(m) in ds && ds[SlotAt(m)].Commit? ==>
          !Path(g, xs, ds[SlotAt(m)].leader, y))
    && ((exists xs :: Path(g, xs, ds[SlotAt(k)].leader, y)) ==>
          || g[x].round < g[y].round
          || (g[x].round == g[y].round && g[x].author < g[y].author)
          || (g[x].round == g[y].round && g[x].author == g[y].author && x < y))
  }

  lemma UnreachedBefore(g: Graph, ds: Decisions, n: nat, seen: set<Digest>, y: Digest)
    requires RoundsDescend(g) && DecidedPrefix(g, ds, n) && y in g && y !in seen
    requires forall k :: 0 <= k < n && ds[SlotAt(k)].Commit? ==> History(g, ds[SlotAt(k)].leader) <= seen
    ensures forall m, xs :: 0 <= m < n && ds[SlotAt(m)].Commit? ==> !Path(g, xs, ds[SlotAt(m)].leader, y)
  {
    hide Path, Linked;
    forall m, xs | 0 <= m < n && ds[SlotAt(m)].Commit? ensures !Path(g, xs, ds[SlotAt(m)].leader, y) {
      LinkedIffPath(g, ds[SlotAt(m)].leader, y);
      assert y !in History(g, ds[SlotAt(m)].leader);
    }
  }

  lemma OrdersAcross(g: Graph, ds: Decisions, k: nat, n: nat, x: Digest, y: Digest)
    requires RoundsDescend(g) && DecidedPrefix(g, ds, n) && k < n && ds[SlotAt(k)].Commit? && y in g
    requires x in History(g, ds[SlotAt(k)].leader)
    requires forall m, xs :: 0 <= m < n && ds[SlotAt(m)].Commit? ==> !Path(g, xs, ds[SlotAt(m)].leader, y)
    ensures Orders(g, ds, k, x, y)
  {
    hide Path, Linked, SlotAt;
    LinkedIffPath(g, ds[SlotAt(k)].leader, x);
  }

  lemma EmptyStreamSound(g: Graph, genesis: set<Digest>)
    requires CausallyClosed(g, genesis)
    ensures SoundStream(g, genesis, [])
  {
    assert genesis + Elems([]) == genesis;
  }

  /** Total order: the streams of any two nodes, at any two moments, are prefixes of one another. */
  lemma MahiTotalOrder(cfg: Setup, u: Graph, byz: set<Author>, genesis: set<Digest>,
                       g1: Graph, d1: Decisions, n1: nat, g2: Graph, d2: Decisions, n2: nat)
    requires Universe(cfg.committee, u, byz) && View(g1, u) && View(g2, u)
    requires Justified(cfg, g1, d1) && Justified(cfg, g2, d2)
    requires DecidedPrefix(g1, d1, n1) && DecidedPrefix(g2, d2, n2)
    ensures var x1, x2 := Stream(g1, genesis, d1, n1), Stream(g2, genesis, d2, n2);
            x1 <= x2 || x2 <= x1
  {
    var n := if n1 <= n2 then n1 else n2;
    StreamSame(g1, u, genesis, d1, n1);
    StreamSame(g2, u, genesis, d2, n2);
    forall k | 0 <= k < n ensures d1[SlotAt(k)] == d2[SlotAt(k)] {
      MahiAgreement(cfg, u, byz, g1, d1, g2, d2, SlotAt(k));
    }
    StreamByDecisions(u, genesis, d1, d2, n);
    StreamPrefix(u, genesis, d1, n, n1);
    StreamPrefix(u, genesis, d2, n, n2);
  }
}
