/** The core of an authority: what its DAG state holds is a view the commit rule can work on, and each round of
    committing takes the DAG state to the commits that the decided leaders stand for. */
module Cores {
  import opened Committees
  import opened Dags
  import opened DagStates
  import opened Linearizers
  import Agreement
  import BlockManagers
  import CommitRules
  import U = UniversalCommitters

  // ----- the view -----------------------------------------------------------------------

  /** The accepted blocks together with genesis; everything at or below the GC round may be incomplete. */
  ghost function ViewFrom(p: Parameters, st: State): CommitRules.View {
    CommitRules.View(st.accepted + p.genesis, GcRound(p, st.last))
  }

  /** What an authority holds is part of the network. */
  ghost predicate PartOfNetwork(n: Agreement.Network, p: Parameters, accepted: BlockMap) {
    p.size == |n.committee.stakes| && PartOf(accepted, ProposedBlocks(n)) && PartOf(p.genesis, n.blocks)
  }

  lemma ViewIsPart(n: Agreement.Network, p: Parameters, st: State)
    requires PartOfNetwork(n, p, st.accepted)
    ensures PartOf(ViewFrom(p, st).dag, n.blocks)
  {
  }

  lemma PartIsWellFormed(c: Committee, part: BlockMap, all: BlockMap)
    requires WellFormed(c, all) && PartOf(part, all)
    ensures WellFormed(c, part)
  {
    forall r | r in part
      ensures part[r].ref == r && Verified(c, part[r])
    {
      assert Verified(c, all[r]);
    }
  }

  /** Genesis blocks have no ancestors, so the view is complete above the GC round where the accepted blocks are. */
  lemma ViewIsComplete(n: Agreement.Network, p: Parameters, st: State)
    requires Agreement.GoodNetwork(n) && Good(p, st) && PartOfNetwork(n, p, st.accepted)
    ensures CompleteAbove(ViewFrom(p, st).dag, GcRound(p, st.last))
  {
    hide GoodCache, GoodLinks, ProperCommits, RoundsAfter, GcRound;
    GenesisLinksNowhere(n, p);
    var dag := ViewFrom(p, st).dag;
    assert forall r :: r in dag ==> r in p.genesis || (r in st.accepted && dag[r] == st.accepted[r]);
  }

  lemma GenesisLinksNowhere(n: Agreement.Network, p: Parameters)
    requires Agreement.GoodNetwork(n) && ProperParameters(p) && PartOf(p.genesis, n.blocks)
    ensures forall r :: r in p.genesis ==> p.genesis[r].ancestors == []
  {
    forall r | r in p.genesis
      ensures p.genesis[r].ancestors == []
    {
      assert Verified(n.committee, n.blocks[r]);
    }
  }

  /** The DAG state always gives the commit rule a good view of the network, for all rounds above the GC round. */
  lemma ViewIsGood(n: Agreement.Network, p: Parameters, st: State, round: nat)
    requires Agreement.GoodNetwork(n) && Good(p, st) && PartOfNetwork(n, p, st.accepted) && GcRound(p, st.last) < round
    ensures Agreement.ViewOf(n, ViewFrom(p, st), round)
  {
    ViewIsPart(n, p, st);
    PartIsWellFormed(n.committee, ViewFrom(p, st).dag, n.blocks);
    ViewIsComplete(n, p, st);
  }

  /** So does the block manager: with the trusted blocks complete, what it has stored and genesis are a good view. */
  lemma StoredIsGoodView(n: Agreement.Network, genesis: BlockMap, st: BlockManagers.State, round: nat)
    requires Agreement.GoodNetwork(n) && BlockManagers.Good(genesis.Keys, st) && st.gcRound < round
    requires PartOf(st.dag, n.blocks) && PartOf(genesis, n.blocks)
    requires forall r, a :: r in st.dag && r in st.trusted && a in st.dag[r].ancestors && a.round > st.gcRound ==>
               a in st.dag
    ensures Agreement.ViewOf(n, CommitRules.View(st.dag + genesis, st.gcRound), round)
  {
    hide BlockManagers.Indexed, BlockManagers.Accounted;
    BlockManagers.StoredIsComplete(genesis.Keys, st);
    var dag := st.dag + genesis;
    assert PartOf(dag, n.blocks);
    PartIsWellFormed(n.committee, dag, n.blocks);
    forall r | r in genesis
      ensures genesis[r].ancestors == []
    {
      assert Verified(n.committee, n.blocks[r]);
    }
    assert forall r :: r in dag ==> r in genesis || (r in st.dag && dag[r] == st.dag[r]);
  }

  // ----- an authority in step with its decisions ----------------------------------------

  /** The commits of the DAG state are those the decided leaders stand for, over all blocks of the network. */
  ghost predicate InStep(n: Agreement.Network, s: U.Scheduling, d: DagState, h: U.History)
    reads d
  {
    && s.period >= 1 && U.Run(n, s, h) && d.Valid() && MarksExact(d.p, d.Snapshot())
    && PartOfNetwork(n, d.p, d.accepted)
    && d.commits == CommitsFor(ProposedBlocks(n), d.p, CommittedLeaders(U.LogOf(h)))
  }

  /** A new authority is in step with no decisions. */
  method Begin(ghost n: Agreement.Network, ghost s: U.Scheduling, p: Parameters) returns (d: DagState)
    requires s.period >= 1 && ProperParameters(p) && PartOfNetwork(n, p, map[])
    ensures fresh(d) && d.p == p && InStep(n, s, d, U.Start)
  {
    EmptyStore(p);
    hide Good, MarksExact, ProperStore;
    d := Restart(p, Store(map[], [], None));
  }

  lemma EmptyStore(p: Parameters)
    ensures ProperStore(p, Store(map[], [], None))
  {
  }

  lemma AcceptKeepsMarks(p: Parameters, st: State, b: Block)
    requires Good(p, st) && MarksExact(p, st)
    ensures MarksExact(p, AfterAccept(st, b))
  {
    hide GoodCache, GoodLinks, GcRound, ProperCommits, CompleteAbove, ProperBlocks;
    AllBlocksMeans(st.commits);
  }

  /** No other block of this authority has the same round as an own block among these. */
  ghost predicate OwnSlotsFree(p: Parameters, cached: set<BlockRef>, blocks: seq<Block>) {
    forall b, r :: b in blocks && b.ref.author == p.ownIndex && r in cached + RefsOf(blocks) && r != b.ref ==>
      SlotOf(r) != SlotOf(b.ref)
  }

  lemma NextIsAcceptable(n: Agreement.Network, p: Parameters, st: State, before: set<BlockRef>, blocks: seq<Block>,
                         i: nat)
    requires Good(p, st) && i < |blocks| && before <= st.accepted.Keys && RefsOf(blocks[..i]) <= st.accepted.Keys
    requires BlockManagers.InOrder(blocks, GcRound(p, st.last), before + p.genesis.Keys)
    requires ProperBlock(p.size, blocks[i].ref, blocks[i])
    ensures Acceptable(p, st, blocks[i])
  {
    hide Consistent, GoodCache, GoodCommits, GoodLinks, GcRound, RefsOf;
    var b := blocks[i];
    forall k | 0 <= k < |b.ancestors| && b.ancestors[k].round > GcRound(p, st.last)
      ensures b.ancestors[k] in st.accepted
    {
      assert b.ancestors[k] in b.ancestors;
      assert b.ancestors[k] !in p.genesis;
    }
  }

  lemma OwnSlotIsFree(p: Parameters, st: State, cached: set<BlockRef>, blocks: seq<Block>, i: nat)
    requires Good(p, st) && i < |blocks| && st.cache.Keys <= cached + RefsOf(blocks[..i])
    requires OwnSlotsFree(p, cached, blocks)
    ensures blocks[i].ref.author == p.ownIndex && blocks[i].ref !in st.accepted ==>
              forall r :: r in st.cache ==> SlotOf(r) != SlotOf(blocks[i].ref)
  {
    hide Consistent, GoodCommits, GoodLinks;
    assert blocks[i] in blocks;
    assert RefsOf(blocks[..i]) <= RefsOf(blocks);
    forall r | r in st.cache
      ensures r in st.accepted
    {
    }
  }

  /** Accepting a block of the network keeps the authority in step. */
  method AcceptOne(ghost n: Agreement.Network, ghost s: U.Scheduling, d: DagState, b: Block, ghost h: U.History)
    requires InStep(n, s, d, h) && b.ref in ProposedBlocks(n) && ProposedBlocks(n)[b.ref] == b
    requires Acceptable(d.p, d.Snapshot(), b)
    requires b.ref.author == d.p.ownIndex && b.ref !in d.accepted ==> forall r :: r in d.recentBlocks ==>
               SlotOf(r) != SlotOf(b.ref)
    modifies d`recentBlocks, d`recentRefs, d`blocksToWrite, d`accepted
    ensures InStep(n, s, d, h) && d.accepted.Keys == old(d.accepted).Keys + {b.ref}
    ensures d.recentBlocks.Keys <= old(d.recentBlocks).Keys + {b.ref}
  {
    hide U.Run, U.LogOf, Good, MarksExact, CommitsFor, ProposedBlocks, Acceptable, CommittedLeaders;
    AcceptKeepsMarks(d.p, d.Snapshot(), b);
    d.AcceptBlock(b);
  }

  /** Blocks of the network in the order in which the block manager releases them can be accepted one by one, and
      the authority stays in step. */
  method AcceptAll(ghost n: Agreement.Network, ghost s: U.Scheduling, d: DagState, blocks: seq<Block>,
                   ghost h: U.History)
    requires Agreement.GoodNetwork(n) && InStep(n, s, d, h)
    requires BlockManagers.InOrder(blocks, GcRound(d.p, d.lastCommit), d.accepted.Keys + d.p.genesis.Keys)
    requires forall b :: b in blocks ==> b.ref in ProposedBlocks(n) && ProposedBlocks(n)[b.ref] == b
    requires OwnSlotsFree(d.p, d.recentBlocks.Keys, blocks)
    modifies d`recentBlocks, d`recentRefs, d`blocksToWrite, d`accepted
    ensures InStep(n, s, d, h) && d.accepted.Keys == old(d.accepted).Keys + RefsOf(blocks)
  {
    hide Agreement.GoodNetwork, U.Run, U.LogOf, Good, MarksExact, CommitsFor, ProposedBlocks, Acceptable,
      BlockManagers.InOrder, GcRound, RefsOf, CommittedLeaders, OwnSlotsFree, PartOfNetwork, ProperBlocks;
    NoRefs();
    for i := 0 to |blocks|
      invariant InStep(n, s, d, h) && d.accepted.Keys == old(d.accepted).Keys + RefsOf(blocks[..i])
      invariant d.recentBlocks.Keys <= old(d.recentBlocks).Keys + RefsOf(blocks[..i])
    {
      assert blocks[i] in blocks;
      assert blocks[..i + 1] == blocks[..i] + [blocks[i]];
      RefsOfAppend(blocks[..i], blocks[i]);
      ProposedIsProper(n, d.p, d.accepted, blocks[i]);
      NextIsAcceptable(n, d.p, d.Snapshot(), old(d.accepted).Keys, blocks, i);
      OwnSlotIsFree(d.p, d.Snapshot(), old(d.recentBlocks).Keys, blocks, i);
      AcceptOne(n, s, d, blocks[i], h);
    }
    assert blocks[..|blocks|] == blocks;
  }

  lemma ProposedIsProper(n: Agreement.Network, p: Parameters, accepted: BlockMap, b: Block)
    requires Agreement.GoodNetwork(n) && PartOfNetwork(n, p, accepted)
    requires b.ref in ProposedBlocks(n) && ProposedBlocks(n)[b.ref] == b
    ensures ProperBlock(p.size, b.ref, b)
  {
    hide Agreement.GoodNetwork;
    ProposedAreProper(n);
  }

  lemma {:induction false} LeadersConcat(a: seq<CommitRules.LeaderStatus>, b: seq<CommitRules.LeaderStatus>)
    ensures CommittedLeaders(a + b) == CommittedLeaders(a) + CommittedLeaders(b)
  {
    if b == [] {
      assert a + b == a;
    } else {
      var init, last := b[..|b| - 1], b[|b| - 1];
      LeadersConcat(a, init);
      assert (a + b)[..|a + b| - 1] == a + init && (a + b)[|a + b| - 1] == last;
    }
  }

  lemma {:induction false} LeadersAreDecided(log: seq<CommitRules.LeaderStatus>, r: BlockRef)
    requires r in CommittedLeaders(log)
    ensures exists i :: 0 <= i < |log| && log[i].Commit? && log[i].leader == r
  {
    var init, last := log[..|log| - 1], log[|log| - 1];
    if r in CommittedLeaders(init) {
      LeadersAreDecided(init, r);
      var i :| 0 <= i < |init| && init[i].Commit? && init[i].leader == r;
      assert log[i] == init[i];
    }
  }

  /** The GC round is below every round still to be decided. */
  lemma GcBelowNext(n: Agreement.Network, s: U.Scheduling, h: U.History, p: Parameters, st: State)
    requires Agreement.GoodNetwork(n) && U.Run(n, s, h) && Good(p, st) && p.size == |n.committee.stakes|
    requires st.commits == CommitsFor(ProposedBlocks(n), p, CommittedLeaders(U.LogOf(h)))
    ensures GcRound(p, st.last) < U.LastDecided(U.LogOf(h)).round + 1
  {
    hide U.LogOf, U.Run, Agreement.GoodNetwork, Good, CommitsFor, CommittedLeaders, Linearized, U.LastDecided, Rising;
    var log := U.LogOf(h);
    var leaders := CommittedLeaders(log);
    U.LogFollowsRounds(n, s, h);
    LastIsNewest(p, st);
    ProposedAreProper(n);
    LeadersRise(n, s, h);
    CommitsForMeans(ProposedBlocks(n), p, leaders);
    if leaders != [] {
      assert leaders[|leaders| - 1] in leaders;
      LeadersAreDecided(log, leaders[|leaders| - 1]);
      var i :| 0 <= i < |log| && log[i].Commit? && log[i].leader == leaders[|leaders| - 1];
      U.CommittedLeaderIsKnown(n, s, h, i);
    }
  }

  /** Commits leaders that extend the decided ones, from the DAG state as it is. */
  method CommitLeaders(ghost n: Agreement.Network, ghost s: U.Scheduling, d: DagState, leaders: seq<BlockRef>,
                       ghost h: U.History, ghost h': U.History)
    returns (commits: seq<TrustedCommit>)
    requires Agreement.GoodNetwork(n) && InStep(n, s, d, h) && U.Run(n, s, h')
    requires CommittedLeaders(U.LogOf(h')) == CommittedLeaders(U.LogOf(h)) + leaders
    requires forall r :: r in leaders ==> r in d.accepted
    modifies d`recentBlocks, d`lastCommit, d`lastCommittedRounds, d`commitsToWrite, d`commits
    ensures InStep(n, s, d, h') && d.commits == old(d.commits) + commits
  {
    hide U.LogOf, U.Run, Agreement.GoodNetwork, Good, CommitsFor, CommittedLeaders, Rising, MarksExact, PartOf,
      ProposedBlocks, ProperBlocks;
    LeadersRise(n, s, h');
    ProposedAreProper(n);
    commits := HandleCommit(d, leaders, CommittedLeaders(U.LogOf(h)), ProposedBlocks(n));
  }

  /** Decides and commits leaders as long as there are any, with the schedule as it changes on the way. `dag` is
      what the committer reads: the accepted blocks and genesis. The commits stay those the decisions stand for,
      and the last call finds nothing more to commit. */
  method TryCommit(ghost n: Agreement.Network, s: U.Scheduling, c: Committee, d: DagState, dag: BlockMap,
                   log: seq<CommitRules.LeaderStatus>, highestAcceptedRound: nat, ghost h: U.History)
    returns (log': seq<CommitRules.LeaderStatus>, commits: seq<TrustedCommit>, ghost h': U.History)
    requires Agreement.GoodNetwork(n) && c == n.committee && InStep(n, s, d, h) && log == U.LogOf(h)
    requires dag == d.accepted + d.p.genesis
    modifies d`recentBlocks, d`lastCommit, d`lastCommittedRounds, d`commitsToWrite, d`commits
    ensures InStep(n, s, d, h') && log' == U.LogOf(h') && log <= log' && d.commits == old(d.commits) + commits
    ensures |d.commits| == |set k | 0 <= k < |log'| && log'[k].Commit?|
    ensures forall k :: 0 <= k < |log'| && log'[k].Commit? ==>
              var i := |set j | 0 <= j < k && log'[j].Commit?|;
              i < |d.commits| && d.commits[i].leader == log'[k].leader
    ensures h'.Then? && h'.call.view.dag == dag
    ensures forall k :: 0 <= k < |h'.call.statuses| ==> U.FollowsRule(c, h'.call.view, h'.call.statuses, k)
    ensures highestAcceptedRound <= |U.LogOf(h'.prior)| + |h'.call.statuses| + 2
    ensures forall k :: 0 <= k < |h'.call.statuses| && k < h'.call.limit && h'.call.statuses[k].Commit? ==>
              exists j :: 0 <= j < k && h'.call.statuses[j].Undecided?
  {
    hide U.LogOf, U.Run, Agreement.GoodNetwork, Good, CommitsFor, CommittedLeaders, MarksExact, PartOfNetwork,
      U.LastDecided, GcRound, U.ScheduleAfter, U.CommitsLeft, Agreement.ViewOf, U.Horizon, U.FollowsRule;
    log', commits, h' := log, [], h;
    while true
      invariant InStep(n, s, d, h') && log' == U.LogOf(h') && log <= log' && d.commits == old(d.commits) + commits
      decreases U.Horizon(highestAcceptedRound) - |log'|
    {
      SizesAgree(n, d.p, d.accepted);
      U.LogFollowsRounds(n, s, h');
      GcBelowNext(n, s, h', d.p, d.Snapshot());
      ViewIsGood(n, d.p, d.Snapshot(), U.LastDecided(log').round + 1);
      var v := CommitRules.View(dag, GcRound(d.p, d.lastCommit));
      ghost var next;
      var decided;
      decided, next := U.Advance(n, s, c, v, U.ScheduleAfter(s, log'), U.CommitsLeft(s, log'), U.LastDecided(log'),
                                 highestAcceptedRound, h');
      if decided == [] {
        h' := next;
        assert log' + decided == log';
        AllCommitted(n, s, h', d.p, d.commits);
        break;
      }
      var leaders := CommittedLeaders(decided);
      LeadersConcat(log', decided);
      LeadersAreAccepted(n, s, d.p, d.Snapshot(), h', next, decided);
      var more := CommitLeaders(n, s, d, leaders, h', next);
      assert old(d.commits) + commits + more == old(d.commits) + (commits + more);
      NoneMissed(decided);
      log', commits, h' := log' + decided, commits + more, next;
      AllCommitted(n, s, h', d.p, d.commits);
      if leaders == [] {
        break;
      }
    }
  }

  /** Every committed decision has its commit, in order, and there are no others. */
  lemma AllCommitted(n: Agreement.Network, s: U.Scheduling, h: U.History, p: Parameters, commits: seq<TrustedCommit>)
    requires Agreement.GoodNetwork(n) && U.Run(n, s, h) && p.size == |n.committee.stakes|
    requires commits == CommitsFor(ProposedBlocks(n), p, CommittedLeaders(U.LogOf(h)))
    ensures var log := U.LogOf(h);
            && |commits| == |set k | 0 <= k < |log| && log[k].Commit?|
            && forall k :: 0 <= k < |log| && log[k].Commit? ==>
                 var i := |set j | 0 <= j < k && log[j].Commit?|;
                 i < |commits| && commits[i].leader == log[k].leader
  {
    hide U.LogOf, U.Run, Agreement.GoodNetwork, CommitsFor, CommittedLeaders, Linearized;
    var log := U.LogOf(h);
    ProposedAreProper(n);
    LeadersRise(n, s, h);
    CommitsForMeans(ProposedBlocks(n), p, CommittedLeaders(log));
    EveryCommitListed(log, |log|);
    assert log[..|log|] == log;
    forall k | 0 <= k < |log| && log[k].Commit?
      ensures CommitRules.CommitsBefore(log, k) == |set j | 0 <= j < k && log[j].Commit?|
    {
    }
  }

  lemma NoneMissed(decided: seq<CommitRules.LeaderStatus>)
    ensures CommittedLeaders(decided) == [] ==> forall k :: 0 <= k < |decided| ==> !decided[k].Commit?
  {
    EveryCommitListed(decided, |decided|);
    assert decided[..|decided|] == decided;
  }

  lemma SizesAgree(n: Agreement.Network, p: Parameters, accepted: BlockMap)
    requires PartOfNetwork(n, p, accepted)
    ensures p.size == |n.committee.stakes|
  {
  }

  /** A committed leader is not a genesis block, so it is an accepted one. */
  lemma LeadersAreAccepted(n: Agreement.Network, s: U.Scheduling, p: Parameters, st: State, h: U.History, h': U.History,
                           decided: seq<CommitRules.LeaderStatus>)
    requires U.Run(n, s, h') && U.LogOf(h') == U.LogOf(h) + decided && Good(p, st)
    requires forall i :: 0 <= i < |decided| && decided[i].Commit? ==> decided[i].leader in st.accepted + p.genesis
    ensures forall r :: r in CommittedLeaders(decided) ==> r in st.accepted
  {
    hide U.LogOf, U.Run, CommittedLeaders, Good;
    forall r | r in CommittedLeaders(decided)
      ensures r in st.accepted
    {
      LeadersAreDecided(decided, r);
      var i :| 0 <= i < |decided| && decided[i].Commit? && decided[i].leader == r;
      assert U.LogOf(h')[|U.LogOf(h)| + i] == decided[i];
      NotGenesis(n, s, p, st, h', |U.LogOf(h)| + i);
    }
  }

  lemma NotGenesis(n: Agreement.Network, s: U.Scheduling, p: Parameters, st: State, h: U.History, k: nat)
    requires U.Run(n, s, h) && Good(p, st) && k < |U.LogOf(h)| && U.LogOf(h)[k].Commit?
    ensures U.LogOf(h)[k].leader !in p.genesis
  {
    hide U.LogOf, U.Run, Consistent, GoodCache, GoodCommits, GoodLinks;
    U.CommittedLeaderIsKnown(n, s, h, k);
  }

  /** Commits leaders of certified commits: those an honest authority has decided next, as the verification of
      fetched commits ensures. */
  method CommitCertified(ghost n: Agreement.Network, ghost s: U.Scheduling, d: DagState, leaders: seq<BlockRef>,
                         ghost h: U.History, ghost other: U.History, ghost length: nat)
    returns (commits: seq<TrustedCommit>, ghost h': U.History)
    requires Agreement.GoodNetwork(n) && InStep(n, s, d, h) && U.Run(n, s, other)
    requires |U.LogOf(h)| <= length <= |U.LogOf(other)|
    requires CommittedLeaders(U.LogOf(other)[..length]) == CommittedLeaders(U.LogOf(h)) + leaders
    requires forall r :: r in leaders ==> r in d.accepted
    modifies d`recentBlocks, d`lastCommit, d`lastCommittedRounds, d`commitsToWrite, d`commits
    ensures InStep(n, s, d, h') && d.commits == old(d.commits) + commits && U.LogOf(h) <= U.LogOf(h')
    ensures |d.commits| == |set k | 0 <= k < |U.LogOf(h')| && U.LogOf(h')[k].Commit?|
    ensures forall k :: 0 <= k < |U.LogOf(h')| && U.LogOf(h')[k].Commit? ==>
              var i := |set j | 0 <= j < k && U.LogOf(h')[j].Commit?|;
              i < |d.commits| && d.commits[i].leader == U.LogOf(h')[k].leader
  {
    hide U.LogOf, U.Run, Agreement.GoodNetwork, Good, CommitsFor, CommittedLeaders, MarksExact, PartOfNetwork;
    h' := U.Adopt(h, other, length);
    U.AdoptRuns(n, s, h, other, length);
    U.AdoptMeans(n, s, h, other, length);
    U.AdoptExtends(n, s, h, other, length);
    SizesAgree(n, d.p, d.accepted);
    commits := CommitLeaders(n, s, d, leaders, h, h');
    AllCommitted(n, s, h', d.p, d.commits);
  }

  // ----- agreement of authorities -------------------------------------------------------

  /** Only the committee size and the GC depth matter for what is committed. */
  lemma {:induction false} SameCommits(u: BlockMap, p: Parameters, p': Parameters, leaders: seq<BlockRef>)
    requires p.size == p'.size && p.gcDepth == p'.gcDepth
    ensures CommitsFor(u, p, leaders) == CommitsFor(u, p', leaders)
  {
    if leaders != [] {
      SameCommits(u, p, p', leaders[..|leaders| - 1]);
    }
  }

  /** Agreement of whole authorities: of the commits in any two DAG states, with all their blocks in order, one
      sequence is a prefix of the other. */
  lemma AuthoritiesAgree(n: Agreement.Network, s: U.Scheduling, d1: DagState, d2: DagState, h1: U.History,
                         h2: U.History)
    requires Agreement.GoodNetwork(n) && InStep(n, s, d1, h1) && InStep(n, s, d2, h2) && d1.p.gcDepth == d2.p.gcDepth
    ensures d1.commits <= d2.commits || d2.commits <= d1.commits
  {
    hide U.LogOf, U.Run, Agreement.GoodNetwork, Good, CommitsFor, CommittedLeaders, MarksExact;
    SameCommits(ProposedBlocks(n), d1.p, d2.p, CommittedLeaders(U.LogOf(h2)));
    CommitSequencesAgree(n, d1.p, s, h1, h2);
  }
}
