# Commit rules of a family of DAG-BFT protocols

The repository runs several consensus protocols over a DAG of blocks: Mahi-Mahi (uncertified
blocks, two leader slots per round), Narwhal/Tusk and Bullshark (one certified leader every two
rounds) and Shortfin (a leader chain of three blocks, certified inside one another, commits a
wave). Each node decides from its own growing part of the DAG what to output and in which order.
This project models the commit rules, the primary state machines that feed them and the reliable
connection below, and proves what the protocols are for: whatever two nodes have received, and
whenever they decide, their outputs do not contradict each other.

| file | content |
|---|---|
| `Quorums.dfy`, `Sorting.dfy` | stake-weighted committees, the two thresholds, quorum intersection; sorting a set by a key |
| `MahiGraph.dfy`, `MahiStore.dfy` | the Mahi-Mahi block graph, its three queries without memoisation, and the memoising store proved equal to them |
| `MahiSafety.dfy`, `MahiOrder.dfy`, `MahiCommit.dfy`, `MahiUniverse.dfy` | slot decisions and agreement, the output stream and total order, the committer, and why accepted blocks meet the assumptions |
| `ConsensusState.dfy` | certificates and the in-memory state with its garbage collection |
| `LeaderChain.dfy`, `SubDags.dfy`, `LeaderOutput.dfy`, `LeaderNode.dfy` | the Narwhal/Bullshark leader chain, the flattening of a leader's sub-dag, what a commit outputs, and the commit loop |
| `LeaderReplay.dfy` | runs of both protocols that output a certificate twice |
| `Shortfin.dfy`, `ShortfinWave.dfy`, `ShortfinRun.dfy` | record index and leader chain, wave collection, the commit loop |
| `Messages.dfy`, `Aggregators.dfy` | vote, QC and parent checks, and the aggregators that build what passes them |
| `RecordMachine.dfy`, `Voting.dfy`, `Proposer.dfy` | three-state records, the voting rule with the ways headers reach it, the Core-to-Proposer pipe |
| `Connection.dfy` | the reliable connection |
| `Inhabited.dfy` | four authorities: with one equivocating in every round the assumptions of the cross-node theorems hold and a run of the Mahi-Mahi committer commits; with one crashed leader a run skips its slot on the word of the other three |

## Reading the model

- Digests, authors and rounds are natural numbers. Hashing is injective, and one identifier
  stands for a header and for its certificate. Signatures are taken as checked.
- Stake is a natural number; 32-bit overflow of stake and round counters is not modelled.
- A leader schedule is a fixed function of round and index, common to all nodes. Whether the coin
  of a wave can be revealed yet from the blocks of its round is an arbitrary function (`revealed`
  in `MahiCommit`, `elect` in `ShortfinRun`). In Narwhal and Bullshark the coin needs a quorum of
  authors in its round, as in the source; that recovery then succeeds is taken as given, and that
  the quorum is always there when a leader is looked up is proved (`LeaderNode.RoundFull`).
- Cross-node statements quantify over one universe of blocks. Mahi-Mahi: history complete, rounds
  descending, a quorum of previous-round parents, and at most validity-threshold-minus-one stake of
  equivocating authors; all but the last is what the primary's checks give
  (`MahiUniverse.AcceptedIsUniverse`). Narwhal and Bullshark: certified
  headers; that certification leaves one header per author and round is itself proved
  (`LeaderChain.AcceptedIsCertified`).
- History is delivered before its descendants (`consensus/src/lib.rs:87-88`). This is the
  precondition of `MahiCommitter.Insert` and `LeaderNode.Node.Process`.
- A failing `assert!` of the source becomes the result `ok == false`; it is proved impossible
  within the fault bound.
- Iteration over hash maps and ordered maps is a loop that takes the least element first. The
  contracts do not depend on the order, and where the result is a sequence a uniqueness lemma says
  so.
- The Mahi-Mahi wave length is any number from 3 up, which covers the deployed 4 and 5.
- The committee is fixed for the life of a Mahi-Mahi store, because the certificate cache is keyed
  without it.
- A header's payload is the sequence of digests drained from the proposer's queue; the source
  then stores them as a map by digest.
- `lag` selects the protocol in `LeaderNode.Node`: 3 for Narwhal, 1 for Bullshark; `trim` selects
  Bullshark's final filter.

## Where the code differs from what one might expect

- Vote rule. An honest primary can sign two different headers of one slot. Garbage collection
  forgets votes below the collection round (`primary/src/core.rs:1634-1636`), and two channels lead
  to the voting rule without an age check: headers handed back by the header waiter
  (`primary/src/core.rs:1602-1608`) and certificates handed back by the certificate waiter, whose
  header is processed again once it is no longer marked as being processed
  (`primary/src/core.rs:1309-1321` and 1613). The header waiter cancels waits at or below its own
  collection round (`primary/src/header_waiter.rs:292-305`); the certificate waiter cancels nothing.
  Over every run in which no peer header reaches the rule below the collection round no slot is
  voted for twice (`Voting.RunVoter`); such a header can only come from one of the two channels
  (`Voting.LateIsLoopback`), and for every peer header below a collection round each channel has a
  run that votes twice (`Voting.LateHeaderIsVotedTwice`, `Voting.LateCertificateIsVotedTwice`). Own
  headers are never late in this sense, because a primary signs one header per round.
- Nothing twice. `last_committed` is documented as what keeps a certificate from being committed
  twice (`consensus/src/lib.rs:28-29`), but `order_dag` skips a parent only when its round *equals*
  its author's last committed round. A certificate handed in again after its author has committed
  past it is output again (`LeaderReplay.BullsharkReplay`, `LeaderReplay.NarwhalReplay`). Over
  every run without such a certificate nothing is output twice (`LeaderNode.Node.Run`); a run in
  which each certificate is handed in once is one. A commit repeats something exactly when the
  state before it reaches, from the oldest leader to be committed, a certificate brought back this
  way (`LeaderOutput.CommitRepeatsExactly`, `LeaderNode.Node.Process`).
- Anchoring in a Shortfin wave compares a number of authors with the validity threshold, which is
  an amount of stake (`consensus/src/shortfin.rs:512-539`). With unit stakes the two agree
  (`AnchoredByUnitStake`); with positive stakes the count never anchors too much
  (`AnchoredHasStake`), and the two agree for all sets of authorities exactly if no set one short
  of the threshold weighs the threshold (`CountsAlikeExactly`). `HeavyAuthorDoesNotAnchor` shows a
  case in which they differ; headers of authors without stake are rejected.
- The set of rounds waiting for a QC-only signal is never filled, so that signal is never sent
  (`Proposer.Pipe.SendQcSignal`).
- Because of the same comparison, agreement of Narwhal and Bullshark nodes is claimed for leader
  sequences, not for every block.
- `emit_shortfin_record` re-enters itself while it works, so the certified form of a record may
  reach consensus before the structural one. Counts are claimed, not order.

## Model

| member | source | states |
|---|---|---|
| `Quorums.ThresholdArithmetic` | config/src/lib.rs:265-278 | for total stake N and f = (N-1)/3, a quorum is N-f, validity is f+1, together N+1, and two quorums exceed N+f |
| `Quorums.QuorumsIntersect` | config/src/lib.rs:265-278 | any two quorums share at least validity-threshold stake |
| `Quorums.HonestIntersection` | config/src/lib.rs:265-278 | any two quorums share a member outside any set lighter than the validity threshold |
| `Quorums.QuorumMeetsValidity` | config/src/lib.rs:265-278 | a quorum meets every set of validity-threshold stake |
| `Quorums.NoTwoDisjointQuorums` | config/src/lib.rs:265-278 | what is disjoint from a quorum is below a quorum |
| `MahiGraph.SupportStable` | consensus/src/mahi_mahi.rs:125-198 | a complete answer to the support question never changes as the graph grows |
| `MahiGraph.SupportSound` | consensus/src/mahi_mahi.rs:125-198 | a support is a block of the asked author and round, reachable from the voter |
| `MahiGraph.SupportNone` | consensus/src/mahi_mahi.rs:125-198 | a block above the round that supports nothing has no block of that author and round in its history |
| `MahiGraph.SupportComplete` | consensus/src/mahi_mahi.rs:125-198 | with complete history the question is always answered |
| `MahiGraph.SupportFirst` | consensus/src/mahi_mahi.rs:122-124 | of all walks from the voter to a block of the slot, the support lies at the end of the one that takes the earlier parent position wherever it first differs from another |
| `MahiGraph.CertifiesStable` | consensus/src/mahi_mahi.rs:208-259 | a complete answer to the certificate question never changes as the graph grows |
| `MahiGraph.CertifiesComplete` | consensus/src/mahi_mahi.rs:208-259 | with complete history the certificate question is always answered |
| `MahiGraph.CertifiesMeans` | consensus/src/mahi_mahi.rs:208-259 | a block certifies a leader exactly when the authors of its parents one round below, whose support in the slot is this leader, carry more than two thirds of the stake |
| `MahiGraph.LinkedStable` | consensus/src/mahi_mahi.rs:261-328 | a complete answer to the link question never changes as the graph grows |
| `MahiGraph.LinkedComplete` | consensus/src/mahi_mahi.rs:261-328 | with complete history the link question is always answered |
| `MahiGraph.LinkedIffPath` | consensus/src/mahi_mahi.rs:261-328 | the round-pruned search says yes exactly when a path of parent links exists |
| `MahiStore.MahiDag.constructor` | consensus/src/mahi_mahi.rs:54-66 | the store starts with exactly the genesis blocks |
| `MahiStore.MahiDag.Insert` | consensus/src/mahi_mahi.rs:68-81 | a new digest is added beside its equivocations, a known one changes nothing, and every memoised answer stays right for the larger graph |
| `MahiStore.MahiDag.HighestRound` | consensus/src/mahi_mahi.rs:87-93 | the largest stored round |
| `MahiStore.MahiDag.RoundDigests` | consensus/src/mahi_mahi.rs:95-102 | exactly the blocks of the round, equivocations included |
| `MahiStore.MahiDag.SlotDigests` | consensus/src/mahi_mahi.rs:104-110 | exactly the blocks of the author in the round |
| `MahiStore.MahiDag.FindSupport` | consensus/src/mahi_mahi.rs:125-133 | with any memo contents, the answer of the uncached search on the current graph |
| `MahiStore.MahiDag.FindSupportInner` | consensus/src/mahi_mahi.rs:135-198 | the same for the recursive walk, which terminates by decreasing round and never meets a block it is visiting |
| `MahiStore.MahiDag.IsVote` | consensus/src/mahi_mahi.rs:200-206 | whether the voter's support in the leader's slot is this leader |
| `MahiStore.MahiDag.IsCertificate` | consensus/src/mahi_mahi.rs:210-259 | with any memo contents, the answer of the uncached certificate check |
| `MahiStore.MahiDag.CountVoters` | consensus/src/mahi_mahi.rs:223-258 | yes exactly when distinct authors of supporting parents carry a quorum, unknown exactly when there is none and some parent leaves it open |
| `MahiStore.MahiDag.IsLinked` | consensus/src/mahi_mahi.rs:263-266 | with any memo contents, the answer of the uncached link search |
| `MahiStore.MahiDag.IsLinkedInner` | consensus/src/mahi_mahi.rs:268-328 | the same for the recursive walk, which terminates by decreasing round |
| `MahiStore.MahiDag.PruneCaches` | consensus/src/mahi_mahi.rs:330-347 | drops exactly the memo entries rooted below the round and keeps all answers right |
| `MahiSafety.CertifiedUnique` | consensus/src/mahi_mahi.rs:410-413 | within the fault bound no two blocks of one author and round are certified in one decision round |
| `MahiSafety.SkipExcludesCertificate` | consensus/src/mahi_mahi.rs:418-440 | a slot with a direct-skip quorum has no certificate for any of its blocks |
| `MahiSafety.DirectCommitMeans` | consensus/src/mahi_mahi.rs:385-416 | on blocks: a block of the scheduled leader, and authors of more than two thirds of the stake with a block `wave - 1` rounds later that certifies it |
| `MahiSafety.DirectSkipMeans` | consensus/src/mahi_mahi.rs:418-440 | on blocks and paths: authors of more than two thirds of the stake with a block `wave - 2` rounds later from which no path leads to a block of the slot |
| `MahiSafety.AnchorCommitsMeans` | consensus/src/mahi_mahi.rs:479-499 | on blocks and paths: a block of the scheduled leader and a certificate for it `wave - 1` rounds later on a path from the anchor |
| `MahiSafety.AnchorSlotMeans` | consensus/src/mahi_mahi.rs:451-464 | on rounds: the anchor is the first slot at least `wave` rounds above that is not recorded as skipped |
| `MahiSafety.SlotSequence` | consensus/src/mahi_mahi.rs:520-530 | the slots are 1.0, 1.1, 2.0, 2.1, ... |
| `MahiSafety.DirectCommitInevitable` | consensus/src/mahi_mahi.rs:383-416 | a directly committed leader has a certificate in the history of every block above its decision round |
| `MahiSafety.DirectCommitInevitableEverywhere` | consensus/src/mahi_mahi.rs:467-512 | a leader directly committed in one view is committed, as the only one and never skipped, by every later anchor in every view |
| `MahiSafety.AnchorHistoryDetermined` | consensus/src/mahi_mahi.rs:467-512 | what an anchor commits is the same in every view that holds the anchor |
| `MahiSafety.DirectBinds` | consensus/src/mahi_mahi.rs:377-443 | direct evidence anywhere fixes the decision of the slot in every justified table, however that table decided it |
| `MahiSafety.TablesAgreeAt` | consensus/src/mahi_mahi.rs:445-512 | two justified tables agree on a slot, by downward induction over chains of anchors |
| `MahiSafety.JustifiedGrows` | consensus/src/mahi_mahi.rs:377-512 | justified decisions stay justified as the view grows |
| `MahiSafety.MahiAgreement` | consensus/src/mahi_mahi.rs:377-512 | agreement: a slot decided by two nodes, from any two views of one universe, has one decision |
| `MahiUniverse.AcceptedIsUniverse` | primary/src/core.rs:300-322 | blocks that pass the parent check with their history present, and of which only authors within the fault bound equivocate, are a universe: complete history, descending rounds, a quorum of strong parents |
| `Sorting.SortedUnique` | consensus/src/mahi_mahi.rs:607-616 | a set of blocks has one arrangement by round, author and digest, so any correct sort gives it |
| `MahiOrder.BatchCausal` | consensus/src/mahi_mahi.rs:594-625 | a batch is the leader's history minus what was emitted, without repeats, parents first, and leaves the emitted set causally closed |
| `MahiOrder.BatchMeans` | consensus/src/mahi_mahi.rs:594-616 | on blocks and paths: a batch is what the leader reaches and was not emitted, ascending by round, then author, then digest |
| `MahiOrder.StreamSound` | consensus/src/mahi_mahi.rs:576-625 | over a whole run nothing is emitted twice, every block follows its parents, and the history of each committed leader is out |
| `MahiOrder.StreamOrder` | consensus/src/mahi_mahi.rs:576-616 | of any two emitted blocks the earlier is reached by a committed slot before which no committed slot reaches the later, and if it reaches both they are in order of round, author and digest |
| `MahiOrder.StreamSame` | consensus/src/mahi_mahi.rs:594-625 | the stream does not depend on what else the view holds |
| `MahiOrder.MahiTotalOrder` | consensus/src/mahi_mahi.rs:554-625 | total order: the streams of two nodes, at any two moments, are prefixes of one another |
| `MahiCommit.NoConflict` | consensus/src/mahi_mahi.rs:410-413 | no view within the fault bound holds the evidence that makes a safety assertion fail |
| `MahiCommit.FirstUnconsumedOpen` | consensus/src/mahi_mahi.rs:576-585 | once a pass is over, the first slot not consumed is not pending, or undecided without direct evidence |
| `MahiCommit.CommittersAgree` | consensus/src/mahi_mahi.rs:349-356 | any two committers, at any two moments, agree on every slot both decided, have prefix-comparable output, and emit without repeats and causally |
| `MahiCommit.MahiCommitter.constructor` | consensus/src/mahi_mahi.rs:359-371 | nothing decided, genesis counts as emitted |
| `MahiCommit.MahiCommitter.Insert` | consensus/src/mahi_mahi.rs:373-375 | keeps all decisions justified and the output equal to the stream over the larger graph |
| `MahiCommit.MahiCommitter.DirectDecision` | consensus/src/mahi_mahi.rs:377-443 | commits the one leader block with a quorum of certifying authors, skips only with a skip quorum and no committable block, is undecided only without either, and stops only on conflicting certificates |
| `MahiCommit.MahiCommitter.UnseenLeaderIsSkipped` | consensus/src/mahi_mahi.rs:418-440 | if authors of more than two thirds of the stake have a block `wave - 2` rounds after the slot with no path to a block of its leader, and no such block is certified by a quorum, the slot is skipped |
| `MahiCommit.MahiCommitter.DecideFromAnchor` | consensus/src/mahi_mahi.rs:467-512 | commits the one candidate certified in the anchor's history, skips exactly when there is none |
| `MahiCommit.FirstAnchor` | consensus/src/mahi_mahi.rs:451-464 | finds the first committed slot above the decision round with only skipped slots between, or shows that there is none |
| `MahiCommit.MahiCommitter.IndirectDecision` | consensus/src/mahi_mahi.rs:445-465 | decides through that anchor, and is undecided only if no anchor exists among the records |
| `MahiCommit.MahiCommitter.PendingSlots` | consensus/src/mahi_mahi.rs:514-552 | the unconsumed slots in order 1.0, 1.1, 2.0, ..., all pending, up to the first that is not |
| `MahiCommit.PendingMeans` | consensus/src/mahi_mahi.rs:515-544 | on rounds: a slot is pending when some block is at least `wave - 1` rounds above it and the blocks of that round reveal its leader |
| `MahiCommit.MahiCommitter.DecideSlot` | consensus/src/mahi_mahi.rs:558-574 | keeps a recorded decision, else records one with a justification, else shows there is neither direct evidence nor an anchor |
| `MahiCommit.MahiCommitter.DecideSlots` | consensus/src/mahi_mahi.rs:556-574 | one pass changes no recorded decision and leaves no pending slot undecided without reason |
| `MahiCommit.MahiCommitter.ConsumeSlots` | consensus/src/mahi_mahi.rs:576-585 | consumes exactly the decided prefix, without gap or repeat, and emits exactly its batches |
| `MahiCommit.MahiCommitter.TryDecide` | consensus/src/mahi_mahi.rs:554-592 | the output grows by the returned sequence, recorded decisions stay, and the pass saw every pending slot and stopped at the first undecided one |
| `MahiCommit.Unemitted` | consensus/src/mahi_mahi.rs:594-605 | the stack walk collects exactly the leader's history minus what was emitted |
| `MahiCommit.MahiCommitter.Linearize` | consensus/src/mahi_mahi.rs:594-625 | returns exactly the unemitted blocks on paths from the leader, ascending by round, author and digest, and marks exactly them as emitted |
| `MahiCommit.MahiCommitter.Run` | consensus/src/mahi_mahi.rs:628-660 | for every delivery sequence the output is the stream of the decisions and the graph is what was delivered; if the deliveries lie in a universe within the fault bound no assertion fails, and the last pass has settled every pending slot |
| `ConsensusState.State.constructor` | consensus/src/lib.rs:37-48 | nothing committed, genesis in round 0 |
| `ConsensusState.State.Update` | consensus/src/lib.rs:51-66 | the author's round is raised and no other, the last committed round is the maximum over authors, and the nested retains amount to one filter over (round, author) |
| `ConsensusState.UpdateAll` | consensus/src/shortfin.rs:254-256 | updating for every certificate of a batch raises all their authors and amounts to one clean-up |
| `LeaderChain.AcceptedIsCertified` | primary/src/core.rs:1130-1150 | quorum certificates and parent checks together give one header per author and round, with a quorum of previous-round parents |
| `LeaderChain.SupportReaches` | consensus/src/narwhal.rs:47-60 | a leader with validity-threshold support is on a path from every certificate at least two rounds above |
| `LeaderChain.LayerMeans` | consensus/src/narwhal.rs:138-150 | a header is in the layer that the path search computes exactly when a path of parent links leads to it |
| `LeaderChain.WalkMeans` | consensus/src/narwhal.rs:117-135 | the walk lists exactly the leaders of the visited rounds that lie on a path from the leader listed before them |
| `LeaderChain.WalkSplits` | consensus/src/narwhal.rs:117-150 | a walk back over a supported leader continues below it exactly as that leader's own walk |
| `LeaderChain.ChainExtends` | consensus/src/narwhal.rs:117-135 | committing a later leader, with the walk stopped at the last commit, extends the chain of the earlier one |
| `LeaderChain.LeaderSequencesAgree` | consensus/src/bullshark.rs:113-146 | the leader sequences of any two nodes are prefixes of one another |
| `SubDags.OrderDag` | consensus/src/bullshark.rs:149-185 | the leader and exactly the stored certificates reached from it over live parents, no digest twice, without those below the floor, in ascending rounds and within a round in the order of first reference from the round above |
| `SubDags.ReachedMeans` | consensus/src/bullshark.rs:156-176 | reached means at the end of a path of certificates, each stored one round below, referenced, and not at its author's last committed round |
| `SubDags.ReferenceOrderMeans` | consensus/src/narwhal.rs:158-182 | of two certificates of one round the first is referenced from above no later than the second, and if the same certificates reference both it has the larger digest |
| `SubDags.OutputUnique` | consensus/src/bullshark.rs:149-185 | there is one such arrangement of a sub-dag |
| `SubDags.CollectSubDag` | consensus/src/narwhal.rs:153-184 | the depth-first buffer walk collects the leader and exactly what live parents reach, once each |
| `LeaderNode.Linked` | consensus/src/narwhal.rs:138-150 | the layered search says yes exactly when the earlier leader is on a path, and its round lookups cannot fail |
| `LeaderNode.OrderLeaders` | consensus/src/narwhal.rs:117-135 | the walk over what the node stores equals the walk over all certified headers |
| `LeaderNode.Node.Commit` | consensus/src/narwhal.rs:62-70 | the segment of the chain up to the leader is committed, oldest leader first, each in one batch that is its live sub-dag in the state the batch before left; a digest is repeated exactly when the state before reaches, from the oldest leader, a certificate brought back from before its author's last commit |
| `LeaderNode.Node.CommitOne` | consensus/src/bullshark.rs:60-67 | one leader's sub-dag is output, the rounds of its authors are raised, one clean-up follows, and nothing above the leader's round is lost |
| `LeaderNode.Node.Process` | consensus/src/narwhal.rs:15-70 | commits exactly when the certificate's round triggers a stored, supported, uncommitted leader; then the output is the batches of its walk from the stored state, the leader sequence grows along the chain, and a digest is repeated exactly under the condition on the state before; otherwise only the certificate is stored |
| `LeaderNode.CommitsMeans` | consensus/src/narwhal.rs:28-62 | the trigger on rounds and stake: the scheduled leader of an even round from 2 on, `lag` rounds below, not yet committed, referenced in the next round by more than a third of the stake |
| `LeaderNode.Node.Run` | consensus/src/bullshark.rs:15-67 | over every stream, the certificates are handled one after the other as the loop does, all of them are received, and nothing is output twice as long as no output certificate is handed in again from before its author's last commit; handing in each certificate once is enough |
| `LeaderNode.RoundFull` | consensus/src/lib.rs:200-226 | every uncommitted round below a received certificate is stored from a quorum of authors, so a coin never hides a leader |
| `LeaderOutput.BatchAdvances` | consensus/src/lib.rs:51-66 | a batch moves the last committed round to its leader and keeps everything received above it |
| `LeaderOutput.BatchUnique` | consensus/src/bullshark.rs:60-67 | what committing a leader outputs, and in which order, is determined by the state before |
| `LeaderOutput.PutRestores` | consensus/src/bullshark.rs:19-25 | storing a certificate keeps every stored output certificate at its author's last committed round exactly if it is not an output one from before that round |
| `LeaderOutput.BatchesAreNew` | consensus/src/bullshark.rs:149-185 | the batches of a commit repeat nothing if nothing was brought back, leave nothing behind to repeat, and bring out the leaders oldest first |
| `LeaderOutput.RepeatsExactly` | consensus/src/narwhal.rs:171-182 | a batch repeats an output digest exactly when the state before it reaches over live parents, down to the floor, a stored output certificate that is not at its author's last committed round |
| `LeaderOutput.CommitRepeatsExactly` | consensus/src/bullshark.rs:60-67 | a whole commit repeats an output digest exactly when that holds of its oldest leader |
| `LeaderReplay.BullsharkReplay` | consensus/src/bullshark.rs:166-176 | a Bullshark run, every certificate after its history and one handed in twice, whose output repeats a digest |
| `LeaderReplay.NarwhalReplay` | consensus/src/narwhal.rs:171-182 | the same for Narwhal |
| `LeaderNode.NodesAgree` | consensus/src/bullshark.rs:15-67 | the leader sequences of any two nodes, at any two moments, are prefixes of one another |
| `Messages.VerifyVotes` | primary/src/messages.rs:785-819 | succeeds exactly on a quorum of distinct authorities voting for this header |
| `Messages.VerifyEmbeddedQc` | primary/src/messages.rs:486-533 | succeeds exactly when the QC is a dated quorum for the author's previous round |
| `Messages.QcSoundMeans` | primary/src/messages.rs:486-533 | on the fields: a QC for the author's previous round, with one dated vote each from authors of more than two thirds of the stake |
| `Messages.CertificateEmbeds` | primary/src/core.rs:221-227 | a certificate embedded in its author's next header passes that check |
| `Messages.QuorumsCertifyOne` | primary/src/core.rs:901-915 | if honest voters sign one header per slot, two quorums for a slot certify one header |
| `Messages.ValidateMahiParents` | primary/src/core.rs:300-322 | succeeds exactly when all parents are in lower rounds and those of the previous round carry a quorum of distinct authors |
| `Messages.ValidateParents` | primary/src/core.rs:1130-1150 | succeeds exactly for genesis, or when all parents are of the previous round and carry a quorum of distinct authors |
| `Aggregators.VotesAggregator.Append` | primary/src/aggregators.rs:24-49 | a certificate comes out exactly when distinct voters first reach a quorum, with all votes so far, and never again although the weight restarts at zero |
| `Aggregators.AggregateVotes` | primary/src/aggregators.rs:24-49 | over any sequence of votes, repeats included, one certificate or none, by whether the distinct voters are a quorum; from sanitised votes it verifies, and from dated ones it passes the embedded check in its author's next header |
| `Aggregators.CertificatesAggregator.Append` | primary/src/aggregators.rs:69-87 | the digests of all authors so far are reported once, at the first quorum |
| `Aggregators.CertificatesVecAggregator.Append` | primary/src/aggregators.rs:108-125 | from the quorum on everything accepted has been reported, in order, nothing lost or repeated |
| `Aggregators.PhaseBucket.Append` | primary/src/aggregators.rs:197-215 | reports once at the threshold, then stays silent; before that a second vote of an author is an error |
| `Shortfin.InsertAllExact` | consensus/src/shortfin.rs:85-114 | whatever the order and repeats, the digest index holds exactly the delivered digests and counts as certified exactly those delivered certified once |
| `Shortfin.InsertAllOrigin` | consensus/src/shortfin.rs:85-114 | what is stored was delivered or was there before |
| `Shortfin.IndexAllExact` | consensus/src/shortfin.rs:85-114 | the round index keeps, per author, the branch it held or else the first delivered, certified exactly if a certified form of that branch was seen |
| `Shortfin.VerifyLeaderChain` | consensus/src/shortfin.rs:361-421 | returns a chain of three records whose QCs are for one another and whose votes were all cast before the commit round, succeeds whenever three such records are stored, and names the missing part |
| `Shortfin.ChainMeans` | consensus/src/lib.rs:308-320 | a chain on the header fields: author, rounds, QC targets and rounds, and every voter round below the commit round |
| `Shortfin.LeaderChainUnique` | consensus/src/shortfin.rs:361-421 | any two chains for one boundary and leader, in any two record sets, have the same b3 and the same b2 |
| `ShortfinWave.CausalReachability` | consensus/src/shortfin.rs:435-483 | the worklist returns the least set that holds the live seeds and is closed under links to live records |
| `ShortfinWave.LeastReachUnique` | consensus/src/shortfin.rs:435-483 | that set does not depend on the order of the walk |
| `ShortfinWave.CountAnchors` | consensus/src/shortfin.rs:512-530 | for each digest, the distinct boundary authors that reference it, however many blocks each emits |
| `ShortfinWave.AnchoredByUnitStake` | consensus/src/shortfin.rs:531-539 | with unit stakes the author count anchors exactly what validity-threshold stake would |
| `ShortfinWave.AnchoredHasStake` | consensus/src/shortfin.rs:531-539 | with positive stakes what the count anchors carries validity-threshold stake |
| `ShortfinWave.CountsAlikeExactly` | consensus/src/shortfin.rs:531-539 | count and stake agree for every set of authorities exactly if no set of one author less than the threshold weighs the threshold |
| `ShortfinWave.HeavyAuthorDoesNotAnchor` | consensus/src/shortfin.rs:531-539 | records where one author carries the threshold and does not anchor |
| `ShortfinWave.CollectWave` | consensus/src/shortfin.rs:505-605 | the output lists exactly the certified, exposed, live records that are reached or anchored, in (round, digest) order |
| `ShortfinWave.WaveMeans` | consensus/src/shortfin.rs:558-600 | on the records: certified, below the boundary, not committed past; referenced by enough boundary authors if of the last round and reached otherwise; and targeted by a QC of a reached or boundary record |
| `ShortfinWave.FrontierIsOutput` | consensus/src/shortfin.rs:566-573 | a certified frontier record whose QC only a boundary record carries is output |
| `ShortfinWave.ReachMeans` | consensus/src/shortfin.rs:435-483 | reached means at the end of a path from a chain block or an anchored record, along both kinds of parents, over stored records below the boundary that are not committed past and at most 100 rounds below the lowest seed |
| `ShortfinWave.WaveReachUnique` | consensus/src/shortfin.rs:512-556 | what the commit frontier reaches is determined by records, state and chain |
| `ShortfinWave.WaveOutputUnique` | consensus/src/shortfin.rs:558-605 | the output is determined too, whatever the hash-map order |
| `ConsensusState.RoundHasQuorum` | consensus/src/lib.rs:297-306 | whether the distinct authors indexed at the round carry a quorum |
| `ShortfinRun.Node.GateOpen` | consensus/src/shortfin.rs:173-197 | open exactly for an unprocessed multiple of 4, with our own record and a quorum of authors there, more than 3 rounds above the last committed round |
| `ShortfinRun.ChainIsOutput` | consensus/src/shortfin.rs:558-604 | with their certified forms present, b3 and b2 of a successful boundary are in its wave |
| `ShortfinRun.BoundaryAdvances` | consensus/src/shortfin.rs:194-256 | a boundary committed under the delivery discipline outputs its leader's b3 and b2, lies above all earlier ones and keeps the discipline through clean-up |
| `ShortfinRun.WaveIsNew` | consensus/src/shortfin.rs:576-600 | a wave repeats no digest and lies, author by author, above all earlier output |
| `ShortfinRun.Node.Deliver` | consensus/src/shortfin.rs:142-261 | the whole new state in every case: a stale record is dropped, any other stored, and exactly if the gate is open and the elected leader has a chain the wave of that chain is output and the state cleaned up |
| `ShortfinRun.Node.Run` | consensus/src/shortfin.rs:124-314 | over any input stream the records are delivered one after the other, no digest is output twice and each author's rounds grow from wave to wave; if each carrier comes after the certified form of its QC target, earlier in the stream or held at the start, the boundaries strictly increase and each outputs its b3 and b2 |
| `ShortfinRun.BoundariesAgree` | consensus/src/shortfin.rs:361-421 | two nodes that commit one boundary with one leader share its b3 and its b2, whatever each has received |
| `RecordMachine.Records.AddBubble` | primary/src/core.rs:1154-1186 | a new record starts as a bubble, a known one keeps its state |
| `RecordMachine.Records.RecordQc` | primary/src/core.rs:338-344 | the first QC is kept, a record with payload becomes certificated, no record loses rank |
| `RecordMachine.Records.MarkPayload` | primary/src/core.rs:346-353 | certificated exactly if a QC is known, no record loses rank |
| `RecordMachine.Records.Emit` | primary/src/core.rs:850-899 | hands a record over exactly when that form has not been, with its QC votes if certificated |
| `RecordMachine.Records.Sweep` | primary/src/core.rs:1657-1686 | forgets exactly what is not live |
| `RecordMachine.RunRecords` | primary/src/core.rs:338-353 | between two sweeps the tables and the hand-overs are those of the changes in turn, each due record handed over; no record loses rank and each is handed over at most once without and at most once with votes |
| `Voting.Voter.VoteForHeader` | primary/src/core.rs:901-915 | votes exactly for an unknown header of a slot not voted for; a double vote arises exactly when the slot's other vote has been forgotten, which needs a header below the collection round |
| `Voting.Voter.Sweep` | primary/src/core.rs:1630-1636 | forgets exactly the slots and headers below the collection round |
| `Voting.Intake.Take` | primary/src/core.rs:1565-1636 | one turn of Core, whichever way a header comes in: a complete header that reaches the rule has its slot voted for, every new vote is for it or for a QC target being processed, and only a late header of a peer can double a vote |
| `Voting.RunVoter` | primary/src/core.rs:1565-1636 | over any run of inputs and clean-ups, all complete headers that reach the rule are answered, all votes are for such headers or QC targets, and if no peer header reaches the rule below the collection round no slot is voted for twice |
| `Voting.ReachesRule` | primary/src/core.rs:1437-1453 | from the network only headers at or above the collection round and at most ten ahead reach the rule, with a certificate those not being processed, from the loopback channels any |
| `Voting.WaitersGiveUp` | primary/src/header_waiter.rs:292-305 | the header waiter gives up exactly what waits at or below its collection round, the certificate waiter nothing |
| `Voting.LateIsLoopback` | primary/src/core.rs:1437-1441 | a peer header reaches the rule below the collection round only through the header or the certificate loopback channel |
| `Voting.GenuineAfter` | primary/src/core.rs:944-984 | the waiters hold only headers that came in, so own slots keep to the one header signed for them |
| `Voting.LateHeaderIsVotedTwice` | primary/src/core.rs:1602-1608 | for every peer header below a collection round there is a run to that round, handed back before the sweep and with the header waiter collecting too, that votes for it beside its sibling |
| `Voting.LateCertificateIsVotedTwice` | primary/src/core.rs:1309-1321 | the same through the certificate waiter, with no header taken from the header waiter at all |
| `Voting.HonestVotersSuffice` | primary/src/core.rs:901-915 | voting logs without double votes give the premise of quorum uniqueness |
| `Proposer.LatestRefsExact` | primary/src/core.rs:236-248 | a Shortfin header references exactly the newest observed certificate of each authority |
| `Proposer.Pipe.NextSignal` | primary/src/core.rs:580-751 | a signal exists exactly when the round has a quorum of authors and, for Shortfin, our own certificate with votes; it carries that certificate as QC |
| `Proposer.Pipe.AnnouncesMeans` | primary/src/core.rs:686-735 | a Mahi-Mahi signal references every certificate of the completed round and the weak references, a Shortfin one the newest certificate of each authority, with our own as QC |
| `Proposer.RoundCompleteMeans` | primary/src/core.rs:580-722 | a round is complete with authors of more than two thirds of the stake and, for Shortfin, our own certificate with votes |
| `Proposer.Pipe.TrySignal` | primary/src/core.rs:580-751 | signals each completed round once, in order, up to the first incomplete one |
| `Proposer.Pipe.SendQcSignal` | primary/src/core.rs:835-848 | sends only for a waiting round, and in every reachable state there is none |
| `Proposer.TakeCount` | primary/src/proposer.rs:187-197 | as many digests as needed to reach the header size, at least one if there is any |
| `Proposer.Pipe.MakeHeader` | primary/src/proposer.rs:162-243 | the header takes round, parents, QC and the oldest digests, one if there is any and as many as reach the header size, and uses the parents up |
| `Proposer.Pipe.TryPropose` | primary/src/proposer.rs:413-586 | a header is created exactly when parents, QC and timer or payload allow, with the current round, parents and QC and a filled payload, and uses parents and timer up |
| `Proposer.Pipe.ReceiveSignal` | primary/src/proposer.rs:617-679 | the proposer moves to the signalled round, taking parents and QC as the protocol says |
| `Proposer.RunPipe` | primary/src/proposer.rs:413-711 | for every interleaving of certificates, collections, signals, batches and timer, event by event, header rounds strictly increase, Shortfin headers from round 2 embed a QC of the round before, and the digests drained into headers are those of the batch events in order, none lost or repeated |
| `Connection.Connection.Submit` | network/src/reliable_sender.rs:173-176 | the message joins the end; while disconnected, cancelled ones are dropped |
| `Connection.Connection.Flush` | network/src/reliable_sender.rs:198-219 | transmits in order up to the first failing write, drops only cancelled messages, keeps the rest on failure |
| `Connection.Connection.Acknowledge` | network/src/reliable_sender.rs:227-236 | the oldest transmitted message is acknowledged |
| `Connection.Connection.Fail` | network/src/reliable_sender.rs:248-253 | unacknowledged messages return to the front in their order |
| `Connection.Run` | network/src/reliable_sender.rs:140-254 | over every sequence of steps the connection is where the steps lead, every submission is numbered in order, each submitted message is acknowledged, cancelled or still held, and what is held is in submission order without repeats |

## Left out

- Tokio channels, TCP, RocksDB, serialisation, logging and timer values: messages are values already delivered, and a timer is an event that may happen at any point.
- Signatures, hashing, BLS and the threshold coin.
- The Wahoo state machine; `PhaseBucket` is modelled for its vote counting alone.
- Byzantine behaviour injected for benchmarks: the switch that allows multiple votes, equivocation tags and invalid payloads.
- Block-level agreement of Narwhal and Bullshark and wave-level agreement of Shortfin across nodes: both depend on what has arrived locally, and the code does not decide them.
- Shortfin header validation against referenced history in Core (support weight, QC target and voter rounds in the history) and its caches.
- The choice of weak references in Mahi-Mahi: an arbitrary function of the round.
- The proposer branches of Narwhal and Bullshark, including leader and vote waiting.
- The genesis and empty-vote shortcuts of certificate verification.
- Workers, store, helper, benchmark scripts, and of the two waiters all but waiting, handing back and cancelling: input/output or easy members.
- Liveness: nothing is claimed about when a slot is decided.
- LeaderReplay.BullsharkReplay, LeaderReplay.NarwhalReplay: the converse of `LeaderNode.Node.Run` is given by these runs and, commit by commit, by `LeaderOutput.CommitRepeatsExactly`; a certificate brought back need not be reached by a later leader before it is cleaned up, so not every such run repeats it.
- RecordMachine.RunRecords: lists hand-overs in the order in which they are entered in the tables; it does not state the order in which consensus receives them, because the source re-enters the hand-over before it sends.
- ShortfinRun.Node.Run: that boundaries increase is stated for streams in which the certified form of each QC target comes before its carrier; the rest of the contract holds for every stream.
