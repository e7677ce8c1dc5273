# Mysticeti consensus: a verified model

This project models the core of the Mysticeti consensus engine under `consensus/` and proves
properties of the model with Dafny 4.11. Check everything with `dafny verify dfyconfig.toml`.

Validators exchange blocks that link to earlier blocks and so form a DAG. Each round elects a leader.
A validator reads votes and certificates off its own copy of the DAG, decides which leaders to
commit, and outputs the committed blocks in one order. The model covers that decision rule and the
stateful components around it:

| file | models |
|---|---|
| Committee.dfy, StakeAggregator.dfy | stake thresholds, quorum arithmetic, vote counting |
| Dag.dfy | references and their order, blocks, reachability, `ancestors_at_round` |
| BlockVerifier.dfy | the checks that make a DAG well formed |
| CommitRule.dfy, Committer.dfy | votes, certificates, blame, and the direct and indirect decisions: first as definitions, then as the loops of `base_committer.rs` proved equal to them |
| Agreement.dfy, UniversalCommitter.dfy | agreement between any two views, and a total order over whole runs with changing leader schedules |
| BlockManager.dfy | suspension of blocks with missing ancestors, release in causal order, garbage collection |
| VoteTraversal.dfy, CommitGraph.dfy, CommitFinalizer.dfy | finalizing or rejecting transactions of committed blocks |
| Settlement.dfy | the reference for the finalizer: what becomes of every transaction, as a function of the commits and votes put in |
| VotingGap.dfy | a run in which garbage collection leaves a gap in an authority's committed chain |
| DagState.dfy | block cache over a store, write buffers, eviction, hard links, recovery |
| Linearizer.dfy | expansion of committed leaders into commits, over the DAG state |
| Core.dfy | the committing loop over DAG state, commit rule and linearizer, and agreement of whole authorities |
| CommitSyncer.dfy, CommitVerifier.dfy | fetching missed commits without gaps, and certifying them |
| Quantile.dfy, AncestorState.dfy | weighted quantiles, and exclusion of slow authorities within a stake budget |
| Sorting.dfy | stable sorting by a key, as the standard library does it |

## Main results

- **Total order** (`UniversalCommitters.LogsAgree`): with faulty stake below the validity threshold, the
  decided sequences of any two validators, over any number of calls with any views taken at any
  times, are prefixes of one another. This holds through all changes of the leader schedule, which is
  computed from what was decided, and with certified commits taken over from others. It rests on
  `Agreement.DecisionsAgree`, a descending induction over leader slots for every mix of direct and
  indirect decisions.
- **The same blocks in the same order** (`Linearizers.CommitSequencesAgree`, `Linearizers.HandleCommit`): a validator's
  commits are exactly those its leaders define over all blocks of the network, whatever part of the
  network it has seen, so of any two validators one sequence of commits is a prefix of the other. A
  commit is exactly the leader's causal history above the GC round that was not committed before
  (`Linearizers.SubDagMeans`). `Cores.TryCommit` joins decision rule, schedule and linearizer over the DAG state,
  whose blocks are always a view the rule can work on (`Cores.ViewIsGood`), and `Cores.AuthoritiesAgree` is the
  agreement of whole authorities.
- **A direct commit binds every later anchor** (`Agreement.SupportBindsAnchors`), and a blame quorum rules
  out every certificate in every view (`Agreement.BlameExcludesCertificates`), so both "more than one
  candidate" panics are dead code (`Committers.OneSupportedLeader`, `Committers.OneCertifiedLeader`).
- **Block acceptance is exact and order independent** (`BlockManagers.AcceptedExactly`,
  `BlockManagers.OrderIndependent`, `BlockManagers.FeedInAnyOrder`), with the three indexes consistent after every public call.
- **Transaction finalization counts exactly the votes it should**
  (`VoteTraversals.TryIndirectFinalizePendingTransactionsInBlock`), and **what goes out is a function of what was put in**
  (`CommitFinalizers.CommitFinalizer.ProcessCommit`): which commit leaves at which call, and with which rejected
  transactions, is what the reference in Settlement.dfy says of the commits and the votes at each call.
  `CommitFinalizers.WhyLetGo` gives the exact reason for every transaction with reject votes,
  `Settlements.BooksPartition` that each is settled once, and `CommitFinalizers.AtMostThreePending` bounds the backlog.
- **The cache is invisible** (`DagStates.DagState.GetBlocks`, `DagStates.DagState.ContainsBlocks`) and
  **recovery is faithful** (`DagStates.DagState.constructor`): committed rounds, commit marks and hard
  links after a restart are exactly what the stored data says, the early stop loses nothing, and the
  recovery assertion cannot fail. `DagStates.FlushAndRestart` and `DagStates.CrashAndRestart` put it together.
- **Commit sync loses nothing, leaves no gap and hands nothing on twice** (`CommitSyncers.CommitSyncer`'s invariant):
  batches handed on are results of fetches, each starting where the one before ended, and a range is
  dropped only when it is synced (`CommitSyncers.CommitSyncer.HandleFetchResult`). And
  a verified fetch is a slice of the honest chain (`CommitVerifiers.VerifiedIsSlice`).

## Where code, comments and expectations differ

- `commit_finalizer.rs:611-614` says that of two linked blocks of one authority only the later one's vote
  counts. The code counts the earlier one; the model follows the code.
- That only the *lowest-round* block of an honest authority votes needs its chain to be unbroken in the
  buffered commits. `VotingGaps.GapLetsLaterBlockVote` is a DAG of verified blocks whose commits have such a gap,
  because the block between was garbage collected: the first block rejects, a later one accepts, and both vote.
  `VoteTraversals.OnlyFirstVotes` gives the exact condition, and `Linearizers.ChainIsUnbroken` says when the linearizer
  ensures it.
- `commit_vote_monitor.rs:44` calls the quorum commit index the smallest of its kind. It is the largest
  (`Quantiles.CommitVoteMonitor.QuorumCommitIndex`).
- The shortcut of `contains_blocks` is wrong when no round is kept cached and the GC round has reached an
  authority's last block. `DagStates.ShortcutExactIff` states exactly when it is right. The other results
  about the DAG state take `dag_state_cached_rounds` to be at least 1.

## Assumptions

- Digests do not collide, and signatures make a block's author its real author.
- Safety results assume that authorities outside `honest` hold less stake than the validity threshold and
  that honest authorities sign at most one block per round.
- A view is causally complete above a floor below the leader round it decides, as the block manager
  and garbage collection keep it. The wave length is 3 (`consensus/core/src/commit.rs:37-40`).
- A leader schedule is any function of the decisions up to its last change; all validators compute it alike.
- Certified commits taken over from others lie on the log of some run, as `CommitVerifiers.VerifiedIsSlice` ensures.
- The finalizer and `add_commit` require commits to be disjoint and causally ordered, with leader rounds that do
  not decrease and blocks at rounds up to their leader's. `Linearizers.RunFeedsFinalizer` and
  `Linearizers.NextIsCommittable` prove that the commits of every run are.

## Model

| member | source | states |
|---|---|---|
| `Committees.QuorumOverlap` | consensus/config/src/committee.rs:47-50 | any two quorums of 2T/3+1 share at least (T+2)/3 stake, for every total stake T |
| `Committees.HonestMember` | consensus/config/src/committee.rs:47-50 | a set holding the validity threshold contains an honest authority when faults stay below it |
| `Committees.HonestInBothQuorums` | consensus/config/src/committee.rs:47-50 | two quorums always share an honest authority |
| `Committees.HonestInQuorum` | consensus/config/src/committee.rs:98-106 | every quorum contains an honest authority |
| `Committees.QuorumIsTwoThirds` | consensus/config/src/committee.rs:47-50 | stake is a quorum if and only if it is more than two thirds of the total |
| `Committees.ValidityIsOneThird` | consensus/config/src/committee.rs:47-50 | stake reaches validity if and only if it is at least a third of the total |
| `Committees.ThresholdsMeet` | consensus/config/src/committee.rs:47-50 | quorum and validity threshold add up to the total and one, and validity is the least third |
| `Committees.HonestAreQuorum` | consensus/config/src/committee.rs:47-50 | the honest authorities alone are a quorum, so one is always within reach |
| `Committees.StakeInsert` | consensus/config/src/committee.rs:79-81 | stake is additive over distinct authorities |
| `Committees.StakeMonotone` | consensus/config/src/committee.rs:79-81 | more authorities never hold less stake |
| `StakeAggregators.StakeAggregator.constructor` | consensus/core/src/stake_aggregator.rs:47-53 | starts with no votes and no stake |
| `StakeAggregators.StakeAggregator.Add` | consensus/core/src/stake_aggregator.rs:58-63 | counts each authority once; true exactly when the voters so far hold a quorum |
| `StakeAggregators.StakeAggregator.AddUnique` | consensus/core/src/stake_aggregator.rs:68-74 | counts each authority once; true exactly when the voter is new |
| `StakeAggregators.StakeAggregator.ReachedThreshold` | consensus/core/src/stake_aggregator.rs:80-82 | true exactly when the distinct voters hold a quorum |
| `StakeAggregators.StakeAggregator.Clear` | consensus/core/src/stake_aggregator.rs:88-91 | forgets all votes |
| `BlockVerifiers.VerifyBlock` | consensus/core/src/block_verifier.rs:66-146 | accepts a block exactly when it is well linked: own ancestor first, distinct valid authors, lower rounds, known genesis links, a quorum of parents |
| `BlockVerifiers.VerifyAncestors` | consensus/core/src/block_verifier.rs:103-146 | the ancestor loop passes exactly when every ancestor passes its checks and the parents hold a quorum |
| `BlockVerifiers.ChecksMeanWellLinked` | consensus/core/src/block_verifier.rs:66-146 | the checks made one by one amount to well-linkedness |
| `BlockVerifiers.DistinctAuthorsFit` | consensus/core/src/block_verifier.rs:91-96 | the limit on the number of ancestors rejects nothing the other checks accept |
| `Dags.AncestorsAtRound` | consensus/core/src/dag_state.rs:481-515 | the descending traversal finds exactly the blocks of the round in the causal history, and never meets a missing block |
| `Dags.LinkedAgrees` | consensus/core/src/dag_state.rs:481-515 | two collections complete above a floor give a block the same causal history above it |
| `Dags.First` | consensus/types/src/block.rs:24-29 | the first entry of an ordered set in (round, author, digest) order |
| `Dags.Last` | consensus/types/src/block.rs:24-29 | the last entry of an ordered set |
| `Dags.Ascending` | consensus/types/src/block.rs:24-29 | iteration visits every member once, in strictly ascending order |
| `Dags.OrderIsLexicographic` | consensus/types/src/block.rs:24-29 | a total order decided by round, then author, then digest |
| `Dags.LinkedIsPath` | consensus/core/src/dag_state.rs:481-515 | being in the causal history is having a path of ancestor links down to the block |
| `CommitRules.SupportPersists` | consensus/core/src/base_committer.rs:188-215 | once a block supports a leader, every later block on its author's own chain supports the same one |
| `CommitRules.VoteIsLinkAtNextRound` | consensus/core/src/base_committer.rs:193-227 | in the voting round, supporting a leader block is linking to it |
| `CommitRules.CertificateIs` | consensus/core/src/base_committer.rs:231-275 | a block of the decision round certifies a leader if and only if the authors of its voting-round ancestors that link to the leader hold a quorum |
| `CommitRules.SupportIs` | consensus/core/src/base_committer.rs:364-395 | direct support in terms of links alone: a quorum of authors two rounds up, each over a quorum of authors one round up that link to the leader |
| `CommitRules.LinkIsNoBlame` | consensus/core/src/base_committer.rs:341-345 | a block linking to any block of the leader's author, of whatever round, does not blame |
| `CommitRules.BlamersAre` | consensus/core/src/base_committer.rs:331-360 | who blames, in terms of links alone |
| `CommitRules.CertifiedLinkIs` | consensus/core/src/base_committer.rs:280-311 | what an anchor certifies, in terms of links and causal history alone |
| `CommitRules.AnchorIsFirst` | consensus/core/src/base_committer.rs:135-142 | the anchor is the committed leader with only skipped leaders and leaders below the round before it; none is found exactly when there is none |
| `CommitRules.OwnChainIsPath` | consensus/core/src/commit_finalizer.rs:364-401 | building on a block is having a path of first-ancestor links down to it |
| `Committers.DecisionFollowsLeader` | consensus/core/src/base_committer.rs:170-187 | a wave that has its leader in a round decides two rounds later |
| `Committers.ElectsEveryThirdRound` | consensus/core/src/base_committer.rs:147-187 | from its round offset on, a committer elects a leader in every third round and in no other |
| `Committers.CachedVote` | consensus/core/src/base_committer.rs:240-262 | the vote cache answers as the vote definition does |
| `Committers.IsCertificate` | consensus/core/src/base_committer.rs:231-275 | true exactly when distinct authors of votes among the ancestors hold a quorum, whatever the cache holds |
| `Committers.BlocksAtRound` | consensus/core/src/dag_state.rs:461-478 | exactly the blocks of a round, ascending |
| `Committers.BlocksAtSlot` | consensus/core/src/dag_state.rs:445-457 | exactly the blocks of a slot, ascending |
| `Committers.EnoughLeaderBlame` | consensus/core/src/base_committer.rs:331-360 | true exactly when the authors of stored voting-round blocks none of whose ancestors has the leader's author, at any round, hold a quorum |
| `Committers.EnoughLeaderSupport` | consensus/core/src/base_committer.rs:364-395 | with quick reject, shared cache and early return, true exactly when distinct authors of certificates hold a quorum |
| `Committers.StakeSumBounds` | consensus/core/src/base_committer.rs:366-375 | the stake sum that counts equivocators twice never underestimates, so the quick reject is safe |
| `Committers.CountCertificates` | consensus/core/src/base_committer.rs:376-394 | counting certificates one by one finds a quorum exactly when there is one |
| `Committers.TryDirectDecide` | consensus/core/src/base_committer.rs:86-117 | skip if and only if a quorum of voting-round authors link to no block of the leader's author; otherwise commit exactly the leader block with a quorum of certificates, spelled out in links; else undecided |
| `Committers.PickSupported` | consensus/core/src/base_committer.rs:96-117 | finds the supported leader block of a slot if there is one |
| `Committers.OneSupportedLeader` | consensus/core/src/base_committer.rs:106-112 | at most one leader block of a slot has enough support, so the panic is unreachable |
| `Committers.TryIndirectDecide` | consensus/core/src/base_committer.rs:122-145 | a committed leader at least 3 rounds up, with only skipped or lower leaders before it, decides the slot; without one it stays undecided |
| `Committers.DecideLeaderFromAnchor` | consensus/core/src/base_committer.rs:280-328 | commits exactly the leader block certified in the anchor's history, spelled out in links; else skips |
| `Committers.AnchorDecisionIs` | consensus/core/src/base_committer.rs:280-328 | a decision from an anchor commits a leader block if and only if a block two rounds up in the anchor's history has a quorum of linking authors below it |
| `Committers.PickCertified` | consensus/core/src/base_committer.rs:293-327 | finds the certified leader block if there is one |
| `Committers.AnyCertificate` | consensus/core/src/base_committer.rs:303-311 | true exactly when one of the potential certificates certifies the leader block |
| `Committers.LinksAmongAncestors` | consensus/core/src/base_committer.rs:283-311 | the ancestors of the anchor at the decision round show exactly its certified links |
| `Committers.OneCertifiedLeader` | consensus/core/src/base_committer.rs:313-321 | at most one leader block is certified in an anchor's history, so the panic is unreachable |
| `Agreement.CertificateIsPortable` | consensus/core/src/base_committer.rs:231-275 | a certificate in one view is a certificate in every view that holds the block |
| `Agreement.CertifiedIsPresent` | consensus/core/src/base_committer.rs:231-275 | a view that sees a certificate holds the certified leader block |
| `Agreement.CertifiedIsUnique` | consensus/core/src/base_committer.rs:231-275 | at most one block per slot can be certified, across all views |
| `Agreement.BlameExcludesCertificates` | consensus/core/src/base_committer.rs:331-360 | once some view holds a blame quorum, no view ever sees a certificate for the slot |
| `Agreement.HistoryHoldsQuorums` | consensus/core/src/block_verifier.rs:105-146 | every block reaches a quorum of authors at each earlier round above the floor |
| `Agreement.SupportIsReached` | consensus/core/src/base_committer.rs:280-328 | every block at least a wave above a directly supported leader reaches one of its certificates |
| `Agreement.SupportBindsAnchors` | consensus/core/src/base_committer.rs:280-395 | direct support in one view makes every later anchor in every view decide to commit that leader |
| `Agreement.CertifiedLinkIsPortable` | consensus/core/src/base_committer.rs:280-311 | what an anchor's history certifies does not depend on the view |
| `Agreement.CertifiedLinkIsUnique` | consensus/core/src/base_committer.rs:313-321 | two anchors in two views never certify different blocks of a slot |
| `Agreement.AnchorDecisionsAgree` | consensus/core/src/base_committer.rs:280-328 | one anchor decides a slot the same way in every view |
| `Agreement.SupportedIsUnique` | consensus/core/src/base_committer.rs:364-395 | two views never directly support different blocks of a slot |
| `Agreement.DirectDecisionsAgree` | consensus/core/src/base_committer.rs:86-117 | two direct decisions of a slot agree |
| `Agreement.DirectAndAnchorAgree` | consensus/core/src/base_committer.rs:86-145 | a direct decision agrees with the decision from any anchor |
| `Agreement.DirectAndIndirectAgree` | consensus/core/src/base_committer.rs:86-145 | a direct decision in one view agrees with an indirect one in another |
| `Agreement.IndirectDecisionsAgree` | consensus/core/src/base_committer.rs:122-145 | two indirect decisions agree, by comparing the first committed anchors |
| `Agreement.DecisionsAgree` | consensus/core/src/base_committer.rs:86-145 | no two views decide a slot differently, for any mix of direct and indirect decisions |
| `UniversalCommitters.DecideSlot` | consensus/core/src/universal_committer.rs:73-100 | tries the direct rule, then the indirect one with the later leaders |
| `UniversalCommitters.DecideRound` | consensus/core/src/universal_committer.rs:56-100 | all slots of a round are decided in the right order against the later ones |
| `UniversalCommitters.SlotsAtAre` | consensus/core/src/universal_committer.rs:56-72 | every committer whose wave starts in the round has its slot, in committer order, and there are no others |
| `UniversalCommitters.RuleFollowed` | consensus/core/src/universal_committer.rs:73-100 | every status is what the direct rule says, or else what the indirect rule says of the statuses after it |
| `UniversalCommitters.TryDecide` | consensus/core/src/universal_committer.rs:42-114 | returns the longest decided prefix of the statuses the rules give for all slots after the last decided round |
| `UniversalCommitters.TakeDecided` | consensus/core/src/universal_committer.rs:101-114 | stops at the first undecided leader |
| `UniversalCommitters.DecidedPrefixMeans` | consensus/core/src/universal_committer.rs:101-114 | the output is decided throughout and ends only at an undecided leader |
| `UniversalCommitters.PipelineElectsOnePerRound` | consensus/core/src/universal_committer.rs:205-232 | the pipelined committers elect exactly one leader in every round |
| `UniversalCommitters.PipelineSlots` | consensus/core/src/universal_committer.rs:205-232 | over any span of rounds the slots are one per round, with the scheduled authority |
| `UniversalCommitters.LogFollowsRounds` | consensus/core/src/universal_committer.rs:42-114 | over any run the output has one entry per round, in round order |
| `UniversalCommitters.LogEntriesAgree` | consensus/core/src/universal_committer.rs:42-114 | after equal decisions, and so under one schedule, two runs never decide the next position differently |
| `UniversalCommitters.SameSchedule` | consensus/core/src/leader_schedule.rs:76-89 | fewer decisions than commits are left for a schedule do not change it |
| `UniversalCommitters.SinceChangeIs` | consensus/core/src/leader_schedule.rs:76-89 | commits since the last schedule change are all commits modulo the period |
| `UniversalCommitters.ScheduleIs` | consensus/core/src/leader_schedule.rs:76-89 | after m commits the schedule is elected from the decisions up to commit m - m mod period, and period - m mod period commits are left for it |
| `UniversalCommitters.ChangesEveryPeriod` | consensus/core/src/leader_schedule.rs:76-89 | the schedule comes from the decisions up to the commit that completed the last full period |
| `UniversalCommitters.LogsAgree` | consensus/core/src/core.rs:776-853 | of any two runs, through all schedule changes and with certified commits taken over, one output is a prefix of the other |
| `UniversalCommitters.LogEntryOrigin` | consensus/core/src/core.rs:836-853 | every entry of a log was decided by a call that continued the same log under the schedule of that entry |
| `UniversalCommitters.AdoptExtends` | consensus/core/src/core.rs:1001-1038 | taking over certified commits only adds to the decided sequence |
| `UniversalCommitters.CommittedLeaderIsKnown` | consensus/core/src/universal_committer.rs:101-114 | a committed leader in the output is a block of the network in the round of its entry |
| `UniversalCommitters.Advance` | consensus/core/src/core.rs:836-853 | a call gives a status by the rules to exactly the rounds after the last decided one up to two below the highest accepted; it returns the longest decided prefix within the commits left for the schedule, and extends a run by it; committed leaders are present |
| `Linearizers.LinearizeSubDag` | consensus/core/src/linearizer.rs:156-218 | returns exactly the leader's sub-DAG in commit order and marks exactly its blocks; no block is marked twice, and every ancestor asked for is cached |
| `Linearizers.CommitAncestors` | consensus/core/src/linearizer.rs:177-204 | one step of the walk commits exactly the unmarked ancestors above the GC round |
| `Linearizers.UnmarkedAncestors` | consensus/core/src/linearizer.rs:180-194 | filters the ancestors by GC round and commit mark |
| `Linearizers.MarkAll` | consensus/core/src/linearizer.rs:196-203 | the assertion that a block is committed once never fails |
| `Linearizers.SubDagMeans` | consensus/core/src/linearizer.rs:156-218 | a sub-DAG is exactly the causal history above the GC round that is not committed yet, each block once, by round then author |
| `Linearizers.SortedByKey` | consensus/core/src/commit.rs:405-411 | blocks of a commit are ordered by round, then author |
| `Linearizers.CollectIsLocal` | consensus/core/src/linearizer.rs:156-204 | the walk gives the same result on every view that is complete above the GC round |
| `Linearizers.CommitLeader` | consensus/core/src/linearizer.rs:65-118 | the next commit is the one all blocks of the network define for the leader |
| `Linearizers.HandleCommit` | consensus/core/src/linearizer.rs:223-244 | a validator's commits are exactly those its leaders define over all blocks of the network |
| `Linearizers.CommitsForMeans` | consensus/core/src/linearizer.rs:223-244 | commits of rising leaders are disjoint, closed under ancestors above the GC round, and never link forward |
| `Linearizers.NextIsCommittable` | consensus/core/src/linearizer.rs:65-118 | the next commit meets what the DAG state requires of it |
| `Linearizers.SubDagsFollow` | consensus/core/src/linearizer.rs:223-244 | linearized commits meet what the finalizer requires of any two commits |
| `Linearizers.SubDagIsProper` | consensus/core/src/linearizer.rs:65-118 | and of each one |
| `Linearizers.RunFeedsFinalizer` | consensus/core/src/core.rs:836-880 | the commits of any run, with their blocks, meet everything the finalizer requires of its input: indexes count up from 1, leaders and blocks in order, each with its own way of being decided |
| `Linearizers.CommitsFeedFinalizer` | consensus/core/src/linearizer.rs:223-244 | so do the commits of any rising leaders |
| `Linearizers.CommitMeans` | consensus/core/src/linearizer.rs:156-218 | commit k holds exactly the blocks of its leader's history above the GC round, which is the GC depth below the previous leader, that no earlier commit holds |
| `Linearizers.ChainIsUnbroken` | consensus/core/src/commit_finalizer.rs:364-401 | blocks of an authority that form one chain form one in the buffered commits too, if no own ancestor there was at or below the GC round of its commit |
| `Linearizers.CommitsForPrefix` | consensus/core/src/linearizer.rs:223-244 | more leaders only add commits |
| `Linearizers.LeadersRise` | consensus/core/src/core.rs:853-864 | the leaders a run commits are known blocks in strictly increasing rounds |
| `Linearizers.EveryCommitListed` | consensus/core/src/core.rs:853-877 | every committed decision has its leader among those to commit, at the place its number among the commits gives |
| `Linearizers.CommitSequencesAgree` | consensus/core/src/core.rs:836-880 | of the commit sequences of any two validators, with all their blocks in order, one is a prefix of the other |
| `Linearizers.Restart` | consensus/core/src/dag_state.rs:228-264 | after recovery the commit marks are exact, so linearizing can go on |
| `Cores.ViewIsGood` | consensus/core/src/dag_state.rs:445-515 | the accepted blocks and genesis are at all times a complete, well-formed view for the commit rule above the GC round |
| `Cores.StoredIsGoodView` | consensus/core/src/block_manager.rs:108-180 | so are the stored blocks of the block manager, when the trusted ones are complete |
| `Cores.GcBelowNext` | consensus/core/src/core.rs:836-853 | the GC round is below every round still to be decided |
| `Cores.Begin` | consensus/core/src/dag_state.rs:110-276 | a new authority is in step with no decisions |
| `Cores.AcceptAll` | consensus/core/src/dag_state.rs:378-386 | blocks in the order the block manager releases them can be accepted one by one, and the authority stays in step |
| `Cores.CommitLeaders` | consensus/core/src/core.rs:880-888 | leaders that extend the decided ones take the DAG state to the commits all decisions stand for |
| `Cores.TryCommit` | consensus/core/src/core.rs:776-900 | decides and commits under the changing schedule until nothing more is committed: there are as many commits as committed decisions, the k-th of them with the leader of the k-th; all rounds that can be decided were looked at by the rules, and no commit among them is left over |
| `Cores.AllCommitted` | consensus/core/src/core.rs:853-888 | being in step means that every committed decision has its commit, in order, and that there are no others |
| `Cores.CommitCertified` | consensus/core/src/core.rs:812-888 | leaders of certified commits keep the authority in step with the run they come from: every committed decision has its commit, in order |
| `Cores.AuthoritiesAgree` | consensus/core/src/core.rs:776-900 | of the commits in the DAG states of any two authorities, one sequence is a prefix of the other |
| `BlockManagers.BlockManager.constructor` | consensus/core/src/block_manager.rs:64-74 | starts with nothing suspended or missing |
| `BlockManagers.BlockManager.TryAcceptBlocks` | consensus/core/src/block_manager.rs:80-180 | keeps all indexes consistent; stores exactly the returned blocks, each new, once and after its ancestors; what is to be fetched is missing, above the GC round and an ancestor of an offered block, and covers everything newly missing |
| `BlockManagers.BlockManager.OfferBlock` | consensus/core/src/block_manager.rs:126-172 | one block of a batch: suspends it, or stores it and everything it releases |
| `BlockManagers.BlockManager.TryAcceptOneBlock` | consensus/core/src/block_manager.rs:278-378 | processed, skipped, suspended with the ancestors to fetch, or accepted; the new indexes in each case |
| `BlockManagers.BlockManager.RegisterMissing` | consensus/core/src/block_manager.rs:304-347 | registers exactly the unknown ancestors above the GC round, and fetches those not suspended |
| `BlockManagers.BlockManager.StoreAccepted` | consensus/core/src/block_manager.rs:160-172 | stores an accepted block, then what it releases, in causal order |
| `BlockManagers.BlockManager.AcceptBlocks` | consensus/core/src/dag_state.rs:378-386 | stores all given blocks |
| `BlockManagers.BlockManager.TryUnsuspendChildrenBlocks` | consensus/core/src/block_manager.rs:382-428 | the worklist releases exactly the blocks that miss nothing any more, in causal order, and terminates |
| `BlockManagers.BlockManager.ProcessEntry` | consensus/core/src/block_manager.rs:386-398 | one worklist step keeps the indexes consistent and makes progress |
| `BlockManagers.BlockManager.TellChildren` | consensus/core/src/block_manager.rs:388-398 | every child is told once, and completed ones are released |
| `BlockManagers.BlockManager.TryUnsuspendBlock` | consensus/core/src/block_manager.rs:432-454 | removes one dependency; returns the block exactly when it was the last |
| `BlockManagers.BlockManager.TryAcceptOneCommittedBlock` | consensus/core/src/block_manager.rs:182-208 | stores the block unless known, and withdraws it from all indexes |
| `BlockManagers.BlockManager.OfferCommittedBlock` | consensus/core/src/block_manager.rs:132-172 | one committed block: stored at once with what it releases |
| `BlockManagers.BlockManager.TryAcceptCommittedBlocks` | consensus/core/src/block_manager.rs:91-180 | stores all blocks of certified commits, returns each new block once, nothing new is missing, indexes stay consistent |
| `BlockManagers.BlockManager.StoreReleased` | consensus/core/src/block_manager.rs:160-172 | releases and stores the children of a block that is known or garbage collected |
| `BlockManagers.BlockManager.TryFindBlocks` | consensus/core/src/block_manager.rs:212-273 | returns and registers exactly the references above the GC round that are neither stored nor suspended |
| `BlockManagers.BlockManager.AdvanceGc` | consensus/core/src/dag_state.rs:1006-1014 | a higher GC round keeps the invariant |
| `BlockManagers.BlockManager.TryUnsuspendBlocksForLatestGcRound` | consensus/core/src/block_manager.rs:458-525 | afterwards nothing missing or suspended is at or below the GC round; released blocks are stored in causal order; the assertion holds |
| `BlockManagers.LeastMissingNotSuspended` | consensus/core/src/block_manager.rs:486-486 | the least missing ancestor is never itself suspended |
| `BlockManagers.NothingSuspendedBelow` | consensus/core/src/block_manager.rs:458-525 | with nothing missing at or below the GC round, nothing is suspended there |
| `BlockManagers.NotAcceptedStaysGood` | consensus/core/src/block_manager.rs:278-378 | offering a block that is not accepted keeps the invariant |
| `BlockManagers.AcceptedStaysGood` | consensus/core/src/block_manager.rs:126-172 | accepting a block and storing what it releases keeps the invariant |
| `BlockManagers.ReleasedStaysGood` | consensus/core/src/block_manager.rs:160-172 | storing released blocks keeps the invariant |
| `BlockManagers.CommittedStarts` | consensus/core/src/block_manager.rs:182-208 | taking a committed block out of the indexes leaves only its own entry to process |
| `BlockManagers.FindStaysGood` | consensus/core/src/block_manager.rs:212-273 | registering wanted blocks keeps the invariant |
| `BlockManagers.AcceptedExactly` | consensus/core/src/block_manager.rs:108-180 | above the GC round, stored means trusted or received with its whole history above the GC round received or trusted |
| `BlockManagers.MissingExactly` | consensus/core/src/block_manager.rs:278-378 | a suspended block misses exactly its ancestors above the GC round that are not stored |
| `BlockManagers.OrderIndependent` | consensus/core/src/block_manager.rs:108-180 | stored blocks and suspended blocks depend only on what was received, not on order or batching |
| `BlockManagers.FeedInAnyOrder` | consensus/core/src/block_manager.rs:80-180 | two managers fed the same blocks in any two orders and batchings store the same blocks above the GC round and suspend the same ones |
| `BlockManagers.Feed` | consensus/core/src/block_manager.rs:80-180 | over a run of batches, exactly the fed blocks are received and the invariant holds |
| `BlockManagers.StoredIsComplete` | consensus/core/src/block_manager.rs:108-180 | the stored DAG is complete above the GC round if the trusted part is, as the commit rule needs it |
| `BlockManagers.StoredIsAcceptable` | consensus/core/src/block_manager.rs:278-454 | every stored block meets the reference definition of acceptable |
| `BlockManagers.AcceptableIsStored` | consensus/core/src/block_manager.rs:278-454 | every acceptable block is stored |
| `VoteTraversals.TryIndirectFinalizePendingTransactionsInBlock` | consensus/core/src/commit_finalizer.rs:574-654 | finalizes exactly the transactions whose accepting authorities hold a quorum; never meets a missing block; early exit and ignored set do not change the answer |
| `VoteTraversals.CountVote` | consensus/core/src/commit_finalizer.rs:624-640 | adds a block's vote to every undecided transaction it does not reject; takes out those that reach a quorum |
| `VoteTraversals.AllBelowVisited` | consensus/core/src/commit_finalizer.rs:600-605 | blocks are visited in ascending order: when one is popped, every descendant below it has been visited |
| `VoteTraversals.IgnoredMeansNoVote` | consensus/core/src/commit_finalizer.rs:606-617 | a block is ignored exactly when it builds on an earlier block of its authority that descends from the voted-on block |
| `VoteTraversals.VotingRoot` | consensus/core/src/commit_finalizer.rs:606-617 | below every block that does not vote, on its own chain, is one that does |
| `VoteTraversals.FirstBlockVotes` | consensus/core/src/commit_finalizer.rs:606-617 | with an unbroken chain, the voting block is the lowest-round descendant |
| `VoteTraversals.AcceptingAuthority` | consensus/core/src/commit_finalizer.rs:574-654 | when an authority's other descendants build on its lowest-round one, it accepts exactly what that one does not reject |
| `VoteTraversals.UnbrokenBuildsOnFirst` | consensus/core/src/commit_finalizer.rs:364-401 | an unbroken chain is enough for that |
| `VoteTraversals.OnlyFirstVotes` | consensus/core/src/commit_finalizer.rs:364-401 | only the lowest-round descendant votes exactly when every other one builds on it inside the map |
| `VotingGaps.GapLetsLaterBlockVote` | consensus/core/src/commit_finalizer.rs:380-399 | verified blocks whose linearized commits leave a gap in an authority's chain, so that its first block rejects and the authority still counts as accepting |
| `VoteTraversals.TallyIsFinal` | consensus/core/src/commit_finalizer.rs:641-653 | the tally is complete when all are finalized or all descendants are visited |
| `CommitGraphs.LinkStep` | consensus/core/src/commit_finalizer.rs:330-346 | adding a block and linking it from its ancestors keeps children exact |
| `CommitGraphs.AppendStep` | consensus/core/src/commit_finalizer.rs:372-400 | marking a block along its own chain keeps origin descendants exact |
| `CommitGraphs.RemoveKeepsGraph` | consensus/core/src/commit_finalizer.rs:676-680 | removing blocks that link to nothing left keeps children and origin descendants exact |
| `CommitGraphs.PopKeepsGraph` | consensus/core/src/commit_finalizer.rs:676-680 | popping the earliest commit leaves the exact graph of the rest |
| `CommitFinalizers.CommitFinalizer.constructor` | consensus/core/src/commit_finalizer.rs:84-99 | starts with an empty buffer |
| `CommitFinalizers.CommitFinalizer.ProcessCommit` | consensus/core/src/commit_finalizer.rs:149-269 | exactly the commits the reference lets go are returned, in order, with exactly the transactions it rejects. In plain terms: every buffered leader is less than 3 rounds below the newest; a commit waits for direct finalization if and only if it or one before it came from others and is less than 3 rounds below; the front is not settled, and what is pending in it has neither a quorum of reject votes nor an accepting quorum; a locally decided commit without reject votes that comes to an empty buffer leaves at once |
| `CommitFinalizers.AfterCall` | consensus/core/src/commit_finalizer.rs:149-269 | the state after a call in terms of the buffer, the votes and the newest leader alone |
| `CommitFinalizers.StillWaiting` | consensus/core/src/commit_finalizer.rs:196-209 | which buffered commits still wait for direct finalization |
| `CommitFinalizers.StillOpen` | consensus/core/src/commit_finalizer.rs:420-540 | what is pending in the first commit has no quorum of reject votes, and no quorum of the buffered blocks accepts it |
| `CommitFinalizers.LeavesAtOnce` | consensus/core/src/commit_finalizer.rs:190-217 | a locally decided commit without reject votes leaves an empty buffer at once with nothing rejected |
| `CommitFinalizers.FrontStays` | consensus/core/src/commit_finalizer.rs:656-697 | no settled commit stays first in the buffer |
| `CommitFinalizers.CommitFinalizer.RunPhases` | consensus/core/src/commit_finalizer.rs:149-269 | buffering, direct and indirect finalization one after the other keep the invariant and return what is let go |
| `CommitFinalizers.CommitFinalizer.PushCommit` | consensus/core/src/commit_finalizer.rs:155-164 | the next commit joins the buffer with all its blocks pending; with rising leaders at most 4 commits are then buffered |
| `CommitFinalizers.CommitFinalizer.DirectPhase` | consensus/core/src/commit_finalizer.rs:190-217 | every buffered commit is in the state the reference gives before the checks, and the settled front is let go |
| `CommitFinalizers.CommitFinalizer.DirectFinalization` | consensus/core/src/commit_finalizer.rs:190-209 | exactly the commits the reference directly finalizes at this call are, with the votes of this call; `Settlements.DirectUnless` says which these are |
| `CommitFinalizers.CommitFinalizer.TryDirectFinalizeCommit` | consensus/core/src/commit_finalizer.rs:272-314 | reject votes short of a quorum leave a transaction pending, a quorum rejects it, none finalizes it |
| `CommitFinalizers.SortVoted` | consensus/core/src/commit_finalizer.rs:283-313 | splits the reject-voted transactions of blocks by the threshold |
| `CommitFinalizers.CommitFinalizer.IndirectFinalization` | consensus/core/src/commit_finalizer.rs:221-247 | checks the first commit as long as commits leave; afterwards everything is as the reference says for the call |
| `CommitFinalizers.CommitFinalizer.SettleFirst` | consensus/core/src/commit_finalizer.rs:232-247 | the first commit is checked once, and it and whatever is settled behind it are let go |
| `CommitFinalizers.CommitFinalizer.TryIndirectFinalizeFirstCommit` | consensus/core/src/commit_finalizer.rs:404-418 | late quorum rejects, then accepted ones finalize, then a deep commit rejects the rest: exactly the check of the reference |
| `CommitFinalizers.CommitFinalizer.CheckPendingTransactionsInFirstCommit` | consensus/core/src/commit_finalizer.rs:420-463 | exactly the transactions short of a quorum of reject votes stay pending |
| `CommitFinalizers.CommitFinalizer.TryIndirectFinalizePendingTransactionsInFirstCommit` | consensus/core/src/commit_finalizer.rs:465-540 | finalizes exactly the pending transactions that a quorum accepts |
| `CommitFinalizers.CommitFinalizer.TryIndirectRejectPendingTransactionsInFirstCommit` | consensus/core/src/commit_finalizer.rs:542-569 | rejects all that is pending exactly when the newest leader is 3 rounds above |
| `CommitFinalizers.CommitFinalizer.PopFinalizedCommits` | consensus/core/src/commit_finalizer.rs:656-697 | lets go exactly the finalized front of the buffer with its reject lists, and removes its blocks |
| `CommitFinalizers.CommitFinalizer.LinkBlocksInLastCommit` | consensus/core/src/commit_finalizer.rs:318-347 | the graph then holds exactly the blocks of all buffered commits with exact children |
| `CommitFinalizers.CommitFinalizer.LinkBlock` | consensus/core/src/commit_finalizer.rs:331-345 | links one block from its ancestors in the map |
| `CommitFinalizers.CommitFinalizer.AppendOriginDescendantsFromLastCommit` | consensus/core/src/commit_finalizer.rs:364-401 | origin descendants are exact for all buffered commits |
| `CommitFinalizers.CommitFinalizer.AppendOrigins` | consensus/core/src/commit_finalizer.rs:372-400 | the walk down the own chain marks exactly the blocks it passes, and terminates |
| `CommitFinalizers.MoveSome` | consensus/core/src/commit_finalizer.rs:447-463 | what leaves pending goes to rejected, and nothing else does |
| `CommitFinalizers.ChecksCompose` | consensus/core/src/commit_finalizer.rs:404-418 | the three steps of a check, one after the other, are the check of the reference |
| `CommitFinalizers.BeginCall` | consensus/core/src/commit_finalizer.rs:155-164 | a call starts from the state the reference gives after the calls before |
| `CommitFinalizers.NotYetDirect` | consensus/core/src/commit_finalizer.rs:196-207 | a commit that may not be directly finalized yet holds up all later ones |
| `CommitFinalizers.PopOne` | consensus/core/src/commit_finalizer.rs:656-697 | a commit with nothing pending at the front is one the reference lets go at this call, with the same rejected transactions |
| `CommitFinalizers.EndCall` | consensus/core/src/commit_finalizer.rs:225-247 | when the loop stops, every buffered commit is in the state the reference gives after the call |
| `CommitFinalizers.BacklogIsShallow` | consensus/core/src/commit_finalizer.rs:542-569 | what the reference keeps first in the buffer has a leader less than 3 rounds below the newest |
| `CommitFinalizers.WhyLetGo` | consensus/core/src/commit_finalizer.rs:149-269 | a transaction goes out as rejected exactly when it had a reject quorum at direct finalization, or the first check that settled it found a reject quorum, or no accepting quorum under a leader 3 rounds above; otherwise a check found an accepting quorum |
| `CommitFinalizers.PairsWithout` | consensus/core/src/commit_finalizer.rs:736-750 | removing pending transactions removes exactly those, and the entry when it is empty |
| `CommitFinalizers.AtMostThreeBuffered` | consensus/core/src/commit_finalizer.rs:542-569 | with strictly increasing leader rounds at most 3 commits lie within 3 rounds |
| `CommitFinalizers.AtMostThreePending` | consensus/core/src/commit_finalizer.rs:542-569 | over any run with strictly increasing leaders at most 3 commits stay buffered |
| `Settlements.BooksPartition` | consensus/core/src/commit_finalizer.rs:272-314 | at all times every transaction with reject votes at direct finalization, and no other, is in exactly one of pending, rejected and finalized |
| `Settlements.WhySettled` | consensus/core/src/commit_finalizer.rs:404-569 | exactly which check rejects or finalizes a transaction, or that none has yet |
| `Settlements.DirectUnless` | consensus/core/src/commit_finalizer.rs:196-209 | a commit is not directly finalized by a call if and only if it or one before it in the buffer came from others and is less than 3 rounds below the newest |
| `Settlements.DirectWhenAllowed` | consensus/core/src/commit_finalizer.rs:196-209 | a commit is directly finalized as soon as it is allowed and the ones before it are |
| `Settlements.ExitStep` | consensus/core/src/commit_finalizer.rs:656-697 | a commit leaves at the first call at which it is first, directly finalized and has nothing pending; once gone it stays gone |
| `Settlements.ExitMeans` | consensus/core/src/commit_finalizer.rs:656-697 | the books of a commit that has left are closed |
| `Settlements.ExitSame` | consensus/core/src/commit_finalizer.rs:149-269 | what was let go does not depend on later calls |
| `Settlements.BooksSame` | consensus/core/src/commit_finalizer.rs:149-269 | nor do the books at an earlier time |
| `Settlements.BufferedIsHeld` | consensus/core/src/commit_finalizer.rs:318-347 | the graph over the buffered commits holds exactly the blocks the reference counts votes in |
| `DagStates.DagState.constructor` | consensus/core/src/dag_state.rs:110-276 | recovers committed rounds, the cache, commit marks and hard links exactly from the store |
| `DagStates.RecoverRounds` | consensus/core/src/dag_state.rs:121-154 | stored commit info plus the commits after it give the fold over all commits |
| `DagStates.RoundsAfterIsHighest` | consensus/core/src/dag_state.rs:882-887 | the fold is each authority's highest committed round |
| `DagStates.DagState.LoadBlocks` | consensus/core/src/dag_state.rs:187-226 | all stored blocks above the eviction rounds are cached |
| `DagStates.DagState.LoadAuthority` | consensus/core/src/dag_state.rs:187-226 | the same for one authority |
| `DagStates.DagState.RecoverCommitted` | consensus/core/src/dag_state.rs:228-264 | above the GC round, marks exactly the blocks that some stored commit lists |
| `DagStates.DagState.RecoverCommit` | consensus/core/src/dag_state.rs:250-257 | marking the blocks of a commit never meets one that is marked or not cached |
| `DagStates.EarlyStopIsSafe` | consensus/core/src/dag_state.rs:240-248 | stopping at a leader at or below the GC round loses no mark |
| `DagStates.NotMarkedYet` | consensus/core/src/dag_state.rs:250-257 | the recovery assertion never fails |
| `DagStates.DagState.RecoverLinks` | consensus/core/src/dag_state.rs:267-274 | marks as hard linked exactly what own blocks above the GC round reach above it |
| `DagStates.DagState.AcceptBlock` | consensus/core/src/dag_state.rs:279-331 | a new block is cached and buffered, a known one changes nothing; the invariant holds |
| `DagStates.MirrorsWith` | consensus/core/src/dag_state.rs:334-338 | the references kept per authority stay exactly those of its cached blocks |
| `DagStates.DagState.GetBlocks` | consensus/core/src/dag_state.rs:398-441 | answers exactly as genesis plus all accepted blocks |
| `DagStates.DagState.GetBlock` | consensus/core/src/dag_state.rs:390-394 | the same for one reference |
| `DagStates.DagState.ContainsBlocks` | consensus/core/src/dag_state.rs:708-751 | with the shortcut, answers exactly as membership in genesis plus all accepted blocks |
| `DagStates.DagState.ContainsBlock` | consensus/core/src/dag_state.rs:753-756 | the same for one reference |
| `DagStates.FoundIsExact` | consensus/core/src/dag_state.rs:716-727 | no accepted block lies above its author's highest cached round outside the cache |
| `DagStates.ShortcutExactIff` | consensus/core/src/dag_state.rs:1158-1160 | eviction keeps the shortcut exact if and only if the eviction round stays below the last round, that is, a round is cached or the GC round is lower |
| `DagStates.DagState.SetCommitted` | consensus/core/src/dag_state.rs:760-773 | marks the block; true exactly the first time |
| `DagStates.DagState.LinkCausalHistory` | consensus/core/src/dag_state.rs:786-808 | returns exactly the reachable blocks above the GC round that were not linked, each at most once over a run; terminates with duplicates in the queue |
| `DagStates.LinkedReachesAll` | consensus/core/src/dag_state.rs:786-808 | a linked set closed under ancestors above the GC round contains everything reachable there |
| `DagStates.LinkingIsExact` | consensus/core/src/dag_state.rs:786-808 | an empty queue means the linked set is closed and the result exact |
| `DagStates.DagState.AddCommit` | consensus/core/src/dag_state.rs:833-902 | an old commit is ignored; the next one raises rounds and GC round and keeps the invariant |
| `DagStates.DagState.AddCommitInfo` | consensus/core/src/dag_state.rs:917-933 | records the fold as of the last commit |
| `DagStates.DagState.Flush` | consensus/core/src/dag_state.rs:1025-1107 | everything accepted and committed is then in the store; exactly the blocks up to each eviction round leave the cache |
| `DagStates.FlushAndRestart` | consensus/core/src/dag_state.rs:1017-1025 | a restart after a flush recovers all blocks, all commits and the last committed rounds |
| `DagStates.CrashAndRestart` | consensus/core/src/dag_state.rs:1017-1025 | a restart at any time recovers a consistent part: the flushed blocks and a prefix of the commits |
| `DagStates.DagState.EvictAuthority` | consensus/core/src/dag_state.rs:1085-1096 | evicts an authority's blocks up to its eviction round and keeps the invariant |
| `DagStates.DagState.RemoveUpTo` | consensus/core/src/dag_state.rs:1087-1094 | removes exactly the blocks up to a round |
| `DagStates.DagState.CalculateAuthorityEvictionRound` | consensus/core/src/dag_state.rs:1147-1154 | from the highest cached round, the GC round and the cached rounds |
| `DagStates.GcRoundIs` | consensus/core/src/dag_state.rs:1006-1014 | a round is garbage collected if and only if it is the GC depth or more below the last committed leader |
| `DagStates.EvictionRoundIs` | consensus/core/src/dag_state.rs:1158-1160 | a round is evicted if and only if it is garbage collected and the cached rounds or more below the last one |
| `DagStates.EvictionAdvances` | consensus/core/src/dag_state.rs:1147-1160 | eviction rounds never go down, never pass the GC round, and leave a block above them cached |
| `DagStates.AcceptStaysGood` | consensus/core/src/dag_state.rs:279-331 | accepting keeps cache, store and links consistent |
| `DagStates.CommitStaysGood` | consensus/core/src/dag_state.rs:833-902 | committing keeps them consistent under the higher GC round |
| `DagStates.WriteStaysGood` | consensus/core/src/dag_state.rs:1063-1076 | writing the buffers leaves a store that recovery accepts |
| `DagStates.EvictStaysGood` | consensus/core/src/dag_state.rs:1084-1096 | eviction keeps them consistent |
| `DagStates.LinkStaysGood` | consensus/core/src/dag_state.rs:786-808 | linking keeps them consistent, and nothing is linked a second time |
| `CommitSyncers.CommitSyncer.constructor` | consensus/core/src/commit_syncer.rs:111-141 | starts at the local commit index with nothing scheduled |
| `CommitSyncers.CommitSyncer.TryScheduleOnce` | consensus/core/src/commit_syncer.rs:188-237 | schedules full batches right after everything scheduled or synced, as many as fit below the quorum index and the handled index plus the batches allowed ahead |
| `CommitSyncers.CommitSyncer.HandleFetchResult` | consensus/core/src/commit_syncer.rs:239-374 | a partial result reschedules the rest; only results of fetches are kept or handed on; batches run from the synced index to the new one, each where the one before ended; a range is dropped only when it is synced |
| `CommitSyncers.CommitSyncer.TakeResult` | consensus/core/src/commit_syncer.rs:280-292 | a result that is not all synced is kept; nothing scheduled is lost and ranges stay disjoint |
| `CommitSyncers.CommitSyncer.ProcessFetched` | consensus/core/src/commit_syncer.rs:294-363 | hands on exactly the fetched ranges up to the first gap that are not synced, in order; what stays fetched is beyond the gap |
| `CommitSyncers.CommitSyncer.DeliverRange` | consensus/core/src/commit_syncer.rs:299-362 | hands on one fetched range at or below the next index unless all of it is synced, and raises the synced index to its end |
| `CommitSyncers.CommitSyncer.TryStartFetches` | consensus/core/src/commit_syncer.rs:376-404 | starts the lowest pending ranges until none is left or the limits on parallel fetches, two thirds of the committee and batches ahead are reached; never beyond them but for one fetch |
| `CommitSyncers.CommitSyncer.StartFetch` | consensus/core/src/commit_syncer.rs:395-404 | a range moves from pending to in flight |
| `CommitSyncers.CommitSyncer.TargetIs` | consensus/core/src/commit_syncer.rs:380-393 | the number of parallel fetches is the largest within the configured limit, two thirds of the committee and the batches allowed ahead, but at least one |
| `CommitSyncers.ScheduleOne` | consensus/core/src/commit_syncer.rs:213-236 | a new range overlaps nothing and leaves no index uncovered |
| `CommitSyncers.SplitRange` | consensus/core/src/commit_syncer.rs:280-292 | splitting a partly fetched range keeps ranges disjoint and every unsynced index covered |
| `CommitSyncers.SendOne` | consensus/core/src/commit_syncer.rs:294-362 | everything up to the synced index was committed locally or handed on |
| `CommitSyncers.SendKeepsOnce` | consensus/core/src/commit_syncer.rs:294-362 | no index is handed on twice |
| `CommitSyncers.HandOneOn` | consensus/core/src/commit_syncer.rs:294-362 | one more batch starts where the one before ended |
| `CommitSyncers.NothingLost` | consensus/core/src/commit_syncer.rs:188-404 | when no range is left, everything ever scheduled is synced |
| `CommitVerifiers.VerifyCommits` | consensus/core/src/commit_syncer.rs:734-818 | succeeds exactly when the response yields a chained prefix of the range, all vote blocks verify, and a quorum votes for its last commit |
| `CommitVerifiers.ProperResponseVerifies` | consensus/core/src/commit_syncer.rs:734-818 | every response with consecutive chained commits in the range and vote blocks of a quorum for the last is accepted |
| `CommitVerifiers.ParseCommits` | consensus/core/src/commit_syncer.rs:741-780 | yields the chained prefix inside the range, or fails exactly when there is none |
| `CommitVerifiers.CountVotes` | consensus/core/src/commit_syncer.rs:782-809 | distinct authorities that vote for the commit are counted once |
| `CommitVerifiers.YieldsUnique` | consensus/core/src/commit_syncer.rs:741-776 | a response yields at most one list of commits |
| `CommitVerifiers.ChainsAgreeBelow` | consensus/core/src/commit_syncer.rs:756-769 | two digest chains that agree on a commit agree on all before it |
| `CommitVerifiers.CertifiedIsHonest` | consensus/core/src/commit_syncer.rs:782-809 | a certified commit is the honest one at its index |
| `CommitVerifiers.VerifiedIsSlice` | consensus/core/src/commit_syncer.rs:734-818 | a verified fetch is exactly the honest sequence from the range start to an end inside the range |
| `Quantiles.CommitVoteMonitor.constructor` | consensus/core/src/commit_vote_monitor.rs:23-29 | starts with no votes |
| `Quantiles.CommitVoteMonitor.ObserveBlock` | consensus/core/src/commit_vote_monitor.rs:32-39 | keeps the author's highest vote, and never lowers any |
| `Quantiles.CommitVoteMonitor.QuorumCommitIndex` | consensus/core/src/commit_vote_monitor.rs:45-62 | the largest index that a quorum votes at or above |
| `Quantiles.QuorumPosition` | consensus/core/src/commit_vote_monitor.rs:54-61 | where the accumulated stake of an order first reaches a quorum |
| `Quantiles.QuorumIndexMonotone` | consensus/core/src/commit_vote_monitor.rs:32-62 | the quorum commit index never decreases |
| `Quantiles.QuorumIndexIsBacked` | consensus/core/src/commit_vote_monitor.rs:41-62 | in a committee with stake it always has a quorum behind it |
| `Quantiles.CalculateNetworkHighQuorumRound` | consensus/core/src/ancestor.rs:281-303 | the least round at or above the high rounds of a quorum, or 0 if the given authorities fall short |
| `AncestorStates.AncestorStateManager.constructor` | consensus/core/src/ancestor.rs:83-106 | all included; the budget is two thirds of the bad-node percentage of the total stake |
| `AncestorStates.LogOne` | consensus/core/src/ancestor.rs:221-250 | a change of state adds exactly one entry to the record of changes |
| `AncestorStates.AncestorStateManager.ApplyStateChange` | consensus/core/src/ancestor.rs:221-250 | excluded stake stays exact and within budget, no underflow, the panic branch is dead, changes of one authority are more than 450 rounds apart |
| `AncestorStates.AncestorStateManager.UpdateAllAncestorsState` | consensus/core/src/ancestor.rs:117-219 | exactly who changes: an unlocked excluded authority comes back if and only if its score is above 20 percent of the highest or its high round has reached the network's; only unlocked ones at or below are excluded, and one that stays included would not fit in the budget; each change locks for 450 rounds and is recorded once |
| `AncestorStates.UpdateIs` | consensus/core/src/ancestor.rs:139-219 | who changes, in terms of scores, high rounds, locks and the budget |
| `AncestorStates.AncestorStateManager.IncludeAll` | consensus/core/src/ancestor.rs:186-190 | every eligible excluded authority comes back, and exactly those changes are recorded |
| `AncestorStates.AncestorStateManager.ExcludeWorst` | consensus/core/src/ancestor.rs:192-218 | worst scores first, as far as the budget allows, and exactly those changes are recorded |
| `AncestorStates.CollectTransitions` | consensus/core/src/ancestor.rs:139-184 | exactly the unlocked authorities that qualify, each once |
| `AncestorStates.ChangeIsSpaced` | consensus/core/src/ancestor.rs:38-44 | the lock keeps changes of one authority apart |
| `AncestorStates.ConsiderStep` | consensus/core/src/ancestor.rs:199-218 | greedy exclusion gives precedence to worse scores |
| `Sorting.SortByKey` | consensus/core/src/block_manager.rs:115-115 | the same elements, ordered by key |

## Left out

- Integer widths: rounds, indices and stakes are unbounded; overflow of `u32` and `u64` is not modelled.
- Cryptography, serialization, network, timers, metrics, logging and wall-clock time.
- TryDecide: the resumption inside a round with several leaders; the total order is proved for the production configuration of one leader per round.
- Advance: how reputation scores give the next schedule; a schedule is any function of the decisions up to its last change.
- TryCommit: blocks that become acceptable when the GC round advances join the DAG state in a later call.
- CommitCertified: that the certified leaders lie on another authority's log is a precondition, tied to fetched commits by their digests only.
- CommitLeader: the commit timestamp and the digest of the previous commit are not modelled.
- The threshold clock and the transaction certifier are parameters.
- The panic of `get_uncommitted_blocks_at_round` for rounds at or below the last commit.
- TryIndirectFinalizePendingTransactionsInBlock: the vote count of a transaction is its set of voters instead of an aggregator object, and a block's origin descendants are a set instead of a list.
- ProcessCommit: reject-vote information is one snapshot per call instead of a read per block.
- TryIndirectFinalizePendingTransactionsInFirstCommit: blocks are processed one after another, not in parallel tasks, and shutdown is left out.
- ChainIsUnbroken: one way only; an own ancestor at or below the GC round may have been committed by an earlier buffered commit, which keeps the chain whole.
- AddCommit: timestamps and the pending commit votes are not modelled.
- Flush: finalized commits and their reject lists are not part of the modelled store, and a store write does not fail.
- HandleFetchResult: the fetched payload is represented by its range, and failure to reach Core is left out.
- VerifyCommits: a malformed or unverifiable vote block is one kind of failure, and feeding votes to the transaction certifier is left out.
- QuorumCommitIndex: sorts authorities instead of pairs of index and stake; the order among equal indices does not affect the result.
- Update in place: ordered maps and sets are values held in fields, so aliasing and locking are not modelled.
- Block, transaction size and timestamp checks of the block verifier; leader scoring; the commit observer.
